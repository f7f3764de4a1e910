/**
 * What the column statements promise, proved about the reference semantics:
 * the polarity rules of the if-gate and the then-clauses, the presence gates,
 * the message templates and labels, laziness of the unknown-item errors, and
 * the order, abort behaviour and bounds of a whole run.
 */
module PolicyProperties {
  import opened Wrappers
  import opened PolicyModel
  import opened PolicySpec

  // ---------------------------------------------------------------------------
  // One (column, statement) pair
  // ---------------------------------------------------------------------------

  /**
   * The policy label is "table.statement: " followed by the statement, so two
   * violations carry the same label exactly when they come from the same statement.
   */
  lemma PolicyLabelNamesStatement(a: IfClause, b: IfClause)
    ensures ToPolicy(a)[..17] == "table.statement: " && ToPolicy(a)[17..] == a.statement
    ensures ToPolicy(a) == ToPolicy(b) <==> a.statement == b.statement
  {
    if ToPolicy(a) == ToPolicy(b) {
      assert a.statement == ToPolicy(a)[17..] == ToPolicy(b)[17..] == b.statement;
    }
  }

  /**
   * The if-gate, per if-item as written: the then-clause is evaluated exactly
   * when the hit equals the absence of `not`; `columnName` and `alias` go through
   * isHitColumn with no presence check, `dbType` through isHitExp and only when
   * present. When the gate is shut nothing happens, whatever the then-part is.
   */
  lemma IfGate(sec: Secretary, column: Column, statement: string, clause: IfClause)
    ensures EqualsIgnoreCase(clause.ifItem, "columnName") ==>
      PairOutcome(sec, column, statement, clause) ==
        if sec.isHitColumn(Some(sec.toColumnName(column)), clause.ifValue) == !clause.notIfValue
        then ThenOutcome(sec, column, statement, clause) else Success(None)
    ensures EqualsIgnoreCase(clause.ifItem, "alias") ==>
      PairOutcome(sec, column, statement, clause) ==
        if sec.isHitColumn(column.alias, clause.ifValue) == !clause.notIfValue
        then ThenOutcome(sec, column, statement, clause) else Success(None)
    ensures EqualsIgnoreCase(clause.ifItem, "dbType") ==>
      PairOutcome(sec, column, statement, clause) ==
        if column.dbType.Some? && sec.isHitExp(column.dbType, clause.ifValue) == !clause.notIfValue
        then ThenOutcome(sec, column, statement, clause) else Success(None)
  {
  }

  /**
   * The fixed verdicts follow the checker's polarity rule: "no good" exactly when
   * (keyword is `bad`) == !not; otherwise `notNull` violates exactly when
   * !column.notNull == !not; anything else is an unknown then-clause.
   */
  lemma VerdictPolarity(sec: Secretary, column: Column, statement: string, clause: IfClause)
    ensures EqualsIgnoreCase(clause.thenClause, "bad") == !clause.notThenClause ==>
      VerdictOutcome(sec, column, statement, clause) ==
        Success(Some(Violation(ToPolicy(clause), "The column is no good: " + sec.toColumnDisp(column))))
    ensures (EqualsIgnoreCase(clause.thenClause, "bad") != !clause.notThenClause
             && EqualsIgnoreCase(clause.thenClause, "notNull")) ==>
      VerdictOutcome(sec, column, statement, clause) ==
        if !column.notNull == !clause.notThenClause
        then Success(Some(Violation(ToPolicy(clause),
          "The column should " + NotOr(clause.notThenClause) + "be not-null: " + sec.toColumnDisp(column))))
        else Success(None)
    ensures (EqualsIgnoreCase(clause.thenClause, "bad") != !clause.notThenClause
             && !EqualsIgnoreCase(clause.thenClause, "notNull")) ==>
      VerdictOutcome(sec, column, statement, clause) ==
        Failure(IllegalIfThenStatement(statement, "Unknown then-clause: " + clause.thenClause))
  {
    var keyword := ParseVerdict(clause.thenClause);
    if keyword == Some(NotNull) && !clause.notThenClause {
      assert NotOr(clause.notThenClause) == "";
      assert "The column should " + "" + "be not-null: " == "The column should be not-null: ";
    }
  }

  /**
   * The verdict quirks: `not notNull` and every other negated keyword except `bad`
   * report the column as no good, `not bad` is an error, and so the not-null
   * message is never negated.
   */
  lemma VerdictQuirks(sec: Secretary, column: Column, statement: string, clause: IfClause)
    requires clause.notThenClause
    ensures !EqualsIgnoreCase(clause.thenClause, "bad") ==>
      VerdictOutcome(sec, column, statement, clause) ==
        Success(Some(Violation(ToPolicy(clause), "The column is no good: " + sec.toColumnDisp(column))))
    ensures EqualsIgnoreCase(clause.thenClause, "bad") ==>
      VerdictOutcome(sec, column, statement, clause).Failure?
  {
  }

  /** An unnegated `bad` reports every column that passes the if-gate. */
  lemma BadAlwaysViolates(sec: Secretary, column: Column, statement: string, clause: IfClause)
    requires clause.thenItem.None? && !clause.notThenClause && EqualsIgnoreCase(clause.thenClause, "bad")
    ensures ThenOutcome(sec, column, statement, clause) ==
      Success(Some(Violation("table.statement: " + clause.statement, "The column is no good: " + sec.toColumnDisp(column))))
  {
  }

  /**
   * An item then-clause appends a violation exactly when its attribute is present
   * and the hit equals the `not`; the message follows the shared template with
   * the item's label, and an unknown item is an error.
   */
  lemma ItemCheck(sec: Secretary, column: Column, statement: string, clause: IfClause)
    requires clause.thenItem.Some?
    ensures ParseThenItem(clause.thenItem.value).None? ==>
      ThenItemOutcome(sec, column, statement, clause) ==
        Failure(IllegalIfThenStatement(statement, "Unknown then-item: " + clause.thenItem.value))
    ensures forall item, actual ::
      ParseThenItem(clause.thenItem.value) == Some(item) && ThenSubject(sec, column, item) == Some(actual) ==>
        ThenItemOutcome(sec, column, statement, clause) ==
          if !sec.isHitExp(actual, clause.thenValue) == !clause.notThenValue
          then Success(Some(Violation("table.statement: " + clause.statement,
            "The column " + ItemLabel(item) + " should " + (if clause.notThenValue then "not " else "") + "be "
              + clause.thenValue + " but " + JavaString(actual) + ": " + sec.toColumnDisp(column))))
          else Success(None)
  {
  }

  /**
   * Negation flips the final verdict of an item check and nothing else: an absent
   * gated attribute never produces a violation, negated or not, and a present one
   * produces exactly one of the two clauses' violations.
   */
  lemma NegationFlipsOnlyTheVerdict(sec: Secretary, column: Column, statement: string, clause: IfClause, item: ThenItem)
    requires clause.thenItem.Some? && ParseThenItem(clause.thenItem.value) == Some(item)
    ensures var flipped := clause.(notThenValue := !clause.notThenValue);
      if ThenSubject(sec, column, item).None? then
        ThenItemOutcome(sec, column, statement, clause) == Success(None)
        && ThenItemOutcome(sec, column, statement, flipped) == Success(None)
      else
        ThenItemOutcome(sec, column, statement, clause).Success?
        && ThenItemOutcome(sec, column, statement, flipped).Success?
        && (ThenItemOutcome(sec, column, statement, clause).value.Some?
            != ThenItemOutcome(sec, column, statement, flipped).value.Some?)
  {
  }

  /**
   * The comment check is gated on the alias: with no alias it never runs, even
   * when a comment exists; with an alias and no comment it checks a null comment
   * (rendered "null" in the message).
   */
  lemma CommentGatedOnAlias(sec: Secretary, column: Column, statement: string, clause: IfClause)
    requires clause.thenItem.Some? && EqualsIgnoreCase(clause.thenItem.value, "comment")
    ensures column.alias.None? ==> ThenItemOutcome(sec, column, statement, clause) == Success(None)
    ensures column.alias.Some? && column.comment.None? ==>
      ThenItemOutcome(sec, column, statement, clause) ==
        if sec.isHitExp(None, clause.thenValue) == clause.notThenValue
        then Success(Some(Violation(ToPolicy(clause),
          ItemMessage(ThenComment, clause.notThenValue, clause.thenValue, None, sec.toColumnDisp(column)))))
        else Success(None)
  {
  }

  // ---------------------------------------------------------------------------
  // Runs: composition
  // ---------------------------------------------------------------------------

  lemma ThenAssociative(a: Run, b: Run, c: Run)
    ensures Then(Then(a, b), c) == Then(a, Then(b, c))
  {
    if a.outcome.Pass? && b.outcome.Pass? {
      assert (a.emitted + b.emitted) + c.emitted == a.emitted + (b.emitted + c.emitted);
    }
  }

  lemma SequenceCons(first: Run, rest: seq<Run>)
    ensures Sequence([first] + rest) == Then(first, Sequence(rest))
  {
    assert ([first] + rest)[0] == first;
    assert ([first] + rest)[1..] == rest;
  }

  lemma SequenceSingle(run: Run)
    ensures Sequence([run]) == run
  {
    assert Sequence([run]) == Then(run, Sequence([run][1..]));
    assert run.emitted + [] == run.emitted;
  }

  /**
   * Steps run in order and an error aborts: the run of `r1 + r2` is the run of
   * `r1` followed, unless it failed, by the run of `r2`.
   */
  lemma {:induction false} SequenceAppend(r1: seq<Run>, r2: seq<Run>)
    ensures Sequence(r1 + r2) == Then(Sequence(r1), Sequence(r2))
    decreases |r1|
  {
    if r1 == [] {
      assert r1 + r2 == r2;
      assert [] + Sequence(r2).emitted == Sequence(r2).emitted;
    } else {
      assert (r1 + r2)[0] == r1[0];
      assert (r1 + r2)[1..] == r1[1..] + r2;
      SequenceAppend(r1[1..], r2);
      ThenAssociative(r1[0], Sequence(r1[1..]), Sequence(r2));
    }
  }

  /** One more step: the run of the first i + 1 steps extends the run of the first i. */
  lemma SequencePrefix(runs: seq<Run>, i: nat)
    requires i < |runs|
    ensures Sequence(runs[..i + 1]) == Then(Sequence(runs[..i]), runs[i])
  {
    SequenceAppend(runs[..i], [runs[i]]);
    SequenceSingle(runs[i]);
    assert runs[..i + 1] == runs[..i] + [runs[i]];
  }

  /** A failed step ends the run: the steps after it never run. */
  lemma SequenceAbort(runs: seq<Run>, i: nat)
    requires i < |runs|
    requires Sequence(runs[..i + 1]).outcome.Fail?
    ensures Sequence(runs) == Sequence(runs[..i + 1])
  {
    SequenceAppend(runs[..i + 1], runs[i + 1..]);
    assert runs == runs[..i + 1] + runs[i + 1..];
  }

  /** Appending is associative; stated apart, as an assertion inside RecordStep it makes that proof far costlier. */
  lemma AppendAssociative(a: seq<Violation>, b: seq<Violation>, c: seq<Violation>)
    ensures (a + b) + c == a + (b + c)
  {
  }

  /**
   * Recording one more step: if the sink held the first i steps' violations and
   * the step appended its own, the sink holds the first i + 1 steps' violations;
   * if the step failed, the sink holds the whole run's.
   */
  lemma RecordStep(runs: seq<Run>, i: nat, start: seq<Violation>, before: seq<Violation>, after: seq<Violation>, outcome: Outcome<PolicyError>)
    requires i < |runs|
    requires before == start + Sequence(runs[..i]).emitted && Sequence(runs[..i]).outcome == Pass
    requires after == before + runs[i].emitted && outcome == runs[i].outcome
    ensures outcome.Pass? ==> after == start + Sequence(runs[..i + 1]).emitted && Sequence(runs[..i + 1]).outcome == Pass
    ensures outcome.Fail? ==> after == start + Sequence(runs).emitted && outcome == Sequence(runs).outcome
  {
    var done := Sequence(runs[..i]);
    SequencePrefix(runs, i);
    assert Sequence(runs[..i + 1]) == Run(done.emitted + runs[i].emitted, runs[i].outcome);
    AppendAssociative(start, done.emitted, runs[i].emitted);
    if outcome.Fail? {
      SequenceAbort(runs, i);
    }
  }

  /** Steps that do nothing make a run that does nothing. */
  lemma {:induction false} SequenceOfCleanSteps(runs: seq<Run>)
    requires forall k :: 0 <= k < |runs| ==> runs[k] == Clean
    ensures Sequence(runs) == Clean
    decreases |runs|
  {
    if runs != [] {
      SequenceOfCleanSteps(runs[1..]);
    }
  }

  /** Every violation of a run was appended by one of its steps. */
  lemma {:induction false} SequenceEmittedByStep(runs: seq<Run>, v: Violation)
    requires v in Sequence(runs).emitted
    ensures exists k :: 0 <= k < |runs| && v in runs[k].emitted
    decreases |runs|
  {
    if v !in runs[0].emitted {
      SequenceEmittedByStep(runs[1..], v);
      var k :| 0 <= k < |runs[1..]| && v in runs[1..][k].emitted;
      assert runs[1..][k] == runs[k + 1];
    }
  }

  /** A run of steps that each append at most n violations appends at most |runs| * n. */
  lemma {:induction false} SequenceBound(runs: seq<Run>, n: nat)
    requires forall k :: 0 <= k < |runs| ==> |runs[k].emitted| <= n
    ensures |Sequence(runs).emitted| <= |runs| * n
    decreases |runs|
  {
    if runs != [] {
      SequenceBound(runs[1..], n);
      assert |Then(runs[0], Sequence(runs[1..])).emitted| <= |runs[0].emitted| + |Sequence(runs[1..]).emitted|;
      assert |runs| * n == n + |runs[1..]| * n;
    }
  }

  // ---------------------------------------------------------------------------
  // Runs: the check over a table
  // ---------------------------------------------------------------------------

  /** Without a statement list nothing is appended and nothing is raised, whatever the columns. */
  lemma NoStatementsNoEffect(sec: Secretary, columns: seq<Column>)
    ensures TableRun(sec, columns, None) == Clean
  {
    SequenceOfCleanSteps(TableSteps(sec, columns, None));
  }

  /** A column appends at most one violation per statement. */
  lemma ColumnRunBound(sec: Secretary, column: Column, statements: seq<string>)
    ensures |ColumnRun(sec, column, statements).emitted| <= |statements|
  {
    SequenceBound(ColumnSteps(sec, column, statements), 1);
  }

  /** The whole check appends at most one violation per (column, statement) pair. */
  lemma TableRunBound(sec: Secretary, columns: seq<Column>, statements: seq<string>)
    ensures |TableRun(sec, columns, Some(statements)).emitted| <= |columns| * |statements|
  {
    var steps := TableSteps(sec, columns, Some(statements));
    forall k | 0 <= k < |steps|
      ensures |steps[k].emitted| <= |statements|
    {
      ColumnRunBound(sec, columns[k], statements);
    }
    SequenceBound(steps, |statements|);
  }

  /** The (column, statement) pairs of one column, in statement order. */
  function Row(column: Column, statements: seq<string>): seq<(Column, string)>
  {
    seq(|statements|, j requires 0 <= j < |statements| => (column, statements[j]))
  }

  /** All (column, statement) pairs, column by column. */
  function Pairs(columns: seq<Column>, statements: seq<string>): seq<(Column, string)>
    decreases |columns|
  {
    if columns == [] then [] else Row(columns[0], statements) + Pairs(columns[1..], statements)
  }

  lemma {:induction false} PairsLength(columns: seq<Column>, statements: seq<string>)
    ensures |Pairs(columns, statements)| == |columns| * |statements|
    decreases |columns|
  {
    if columns != [] {
      PairsLength(columns[1..], statements);
      assert |columns| * |statements| == |statements| + (|columns| - 1) * |statements|;
    }
  }

  /** Pair number i * |statements| + j is column i with statement j. */
  lemma {:induction false} PairsAt(columns: seq<Column>, statements: seq<string>, i: nat, j: nat)
    requires i < |columns| && j < |statements|
    ensures |Pairs(columns, statements)| == |columns| * |statements|
    ensures i * |statements| + j < |Pairs(columns, statements)|
    ensures Pairs(columns, statements)[i * |statements| + j] == (columns[i], statements[j])
    decreases i
  {
    PairsLength(columns, statements);
    if i == 0 {
      assert Pairs(columns, statements)[j] == Row(columns[0], statements)[j];
    } else {
      PairsAt(columns[1..], statements, i - 1, j);
      PairsLength(columns[1..], statements);
      assert i * |statements| == |statements| + (i - 1) * |statements|;
      var k := (i - 1) * |statements| + j;
      assert i * |statements| + j == |statements| + k;
      assert Pairs(columns, statements)[|statements| + k] == Pairs(columns[1..], statements)[k];
    }
  }

  /** The steps of a sequence of pairs, one per pair. */
  function PairSteps(sec: Secretary, pairs: seq<(Column, string)>): seq<Run>
  {
    seq(|pairs|, k requires 0 <= k < |pairs| => Emit(StepOutcome(sec, pairs[k].0, pairs[k].1)))
  }

  /**
   * The order of a whole run: the (column, statement) pairs evaluated in column
   * order and, within a column, in statement-list order (pair i * |statements| + j
   * by PairsAt), stopping at the first error with everything appended before it kept.
   */
  lemma {:induction false} TableRunInPairOrder(sec: Secretary, columns: seq<Column>, statements: seq<string>)
    ensures TableRun(sec, columns, Some(statements)) == Sequence(PairSteps(sec, Pairs(columns, statements)))
    decreases |columns|
  {
    if columns != [] {
      var row := Row(columns[0], statements);
      var rest := Pairs(columns[1..], statements);
      TableRunInPairOrder(sec, columns[1..], statements);
      TableStepsCons(sec, columns, Some(statements));
      SequenceCons(ColumnStatementRun(sec, columns[0], Some(statements)), TableSteps(sec, columns[1..], Some(statements)));
      PairStepsAppend(sec, row, rest);
      RowSteps(sec, columns[0], statements);
      SequenceAppend(PairSteps(sec, row), PairSteps(sec, rest));
    }
  }

  lemma TableStepsCons(sec: Secretary, columns: seq<Column>, statementList: Option<seq<string>>)
    requires columns != []
    ensures TableSteps(sec, columns, statementList)
      == [ColumnStatementRun(sec, columns[0], statementList)] + TableSteps(sec, columns[1..], statementList)
  {
    var steps := TableSteps(sec, columns, statementList);
    var cons := [ColumnStatementRun(sec, columns[0], statementList)] + TableSteps(sec, columns[1..], statementList);
    assert |steps| == |cons|;
    forall k | 0 <= k < |steps|
      ensures steps[k] == cons[k]
    {
      if k > 0 {
        assert columns[1..][k - 1] == columns[k];
      }
    }
  }

  lemma PairStepsAppend(sec: Secretary, p1: seq<(Column, string)>, p2: seq<(Column, string)>)
    ensures PairSteps(sec, p1 + p2) == PairSteps(sec, p1) + PairSteps(sec, p2)
  {
  }

  lemma RowSteps(sec: Secretary, column: Column, statements: seq<string>)
    ensures PairSteps(sec, Row(column, statements)) == ColumnSteps(sec, column, statements)
  {
  }

  // ---------------------------------------------------------------------------
  // Runs: labels, laziness
  // ---------------------------------------------------------------------------

  /** The violation carries the label of one of the listed statements. */
  ghost predicate LabelledByListedStatement(sec: Secretary, v: Violation, statements: seq<string>)
  {
    exists j :: 0 <= j < |statements| && sec.extractIfClause(statements[j]).Some?
      && v.policy == "table.statement: " + sec.extractIfClause(statements[j]).value.statement
  }

  lemma ColumnRunLabels(sec: Secretary, column: Column, statements: seq<string>, v: Violation)
    requires v in ColumnRun(sec, column, statements).emitted
    ensures LabelledByListedStatement(sec, v, statements)
  {
    var steps := ColumnSteps(sec, column, statements);
    SequenceEmittedByStep(steps, v);
    var j :| 0 <= j < |steps| && v in steps[j].emitted;
    assert sec.extractIfClause(statements[j]).Some?;
  }

  /** Every violation of a whole run carries the label of one of the listed statements. */
  lemma TableRunLabels(sec: Secretary, columns: seq<Column>, statements: seq<string>)
    ensures forall v :: v in TableRun(sec, columns, Some(statements)).emitted ==> LabelledByListedStatement(sec, v, statements)
  {
    forall v | v in TableRun(sec, columns, Some(statements)).emitted
      ensures LabelledByListedStatement(sec, v, statements)
    {
      var steps := TableSteps(sec, columns, Some(statements));
      SequenceEmittedByStep(steps, v);
      var i :| 0 <= i < |steps| && v in steps[i].emitted;
      ColumnRunLabels(sec, columns[i], statements, v);
    }
  }

  /**
   * Unknown items are found lazily: a statement whose if-clause fires on no column
   * appends nothing and raises nothing, whatever its then-part says.
   */
  lemma UnfiredStatementIsSilent(sec: Secretary, columns: seq<Column>, statement: string, clause: IfClause, item: IfItem)
    requires sec.extractIfClause(statement) == Some(clause)
    requires ParseIfItem(clause.ifItem) == Some(item)
    requires forall k :: 0 <= k < |columns| ==> !IfFires(sec, columns[k], item, clause)
    ensures TableRun(sec, columns, Some([statement])) == Clean
  {
    var steps := TableSteps(sec, columns, Some([statement]));
    forall k | 0 <= k < |steps|
      ensures steps[k] == Clean
    {
      assert !IfFires(sec, columns[k], item, clause);
      SequenceSingle(Emit(StepOutcome(sec, columns[k], statement)));
      assert ColumnSteps(sec, columns[k], [statement]) == [Emit(StepOutcome(sec, columns[k], statement))];
    }
    SequenceOfCleanSteps(steps);
  }

  /** A step that does nothing can be dropped from a run. */
  lemma CleanStepDrops(runs: seq<Run>, j: nat)
    requires j < |runs| && runs[j] == Clean
    ensures Sequence(runs) == Sequence(runs[..j] + runs[j + 1..])
  {
    var after := Sequence(runs[j + 1..]);
    assert runs == runs[..j] + ([runs[j]] + runs[j + 1..]);
    SequenceAppend(runs[..j], [runs[j]] + runs[j + 1..]);
    SequenceCons(runs[j], runs[j + 1..]);
    assert Then(Clean, after) == after by {
      assert [] + after.emitted == after.emitted;
    }
    SequenceAppend(runs[..j], runs[j + 1..]);
  }

  /**
   * In a list of any length, a statement whose if-clause fires on no column can
   * be removed without changing the run: it appends nothing and raises nothing,
   * whatever its then-part says.
   */
  lemma UnfiredStatementDrops(sec: Secretary, columns: seq<Column>, statements: seq<string>, j: nat, clause: IfClause, item: IfItem)
    requires j < |statements|
    requires sec.extractIfClause(statements[j]) == Some(clause)
    requires ParseIfItem(clause.ifItem) == Some(item)
    requires forall k :: 0 <= k < |columns| ==> !IfFires(sec, columns[k], item, clause)
    ensures TableRun(sec, columns, Some(statements))
      == TableRun(sec, columns, Some(statements[..j] + statements[j + 1..]))
  {
    var dropped := statements[..j] + statements[j + 1..];
    var all := TableSteps(sec, columns, Some(statements));
    var fewer := TableSteps(sec, columns, Some(dropped));
    forall k | 0 <= k < |columns|
      ensures all[k] == fewer[k]
    {
      var steps := ColumnSteps(sec, columns[k], statements);
      assert !IfFires(sec, columns[k], item, clause);
      assert steps[j] == Clean;
      CleanStepDrops(steps, j);
      assert steps[..j] + steps[j + 1..] == ColumnSteps(sec, columns[k], dropped);
    }
    assert all == fewer;
  }

  /**
   * An unknown if-item aborts the run at the first column: whatever the statements
   * listed before it append on that column is kept, the statements after it and
   * the later columns never run, and the run ends with an error. When it is the
   * first statement listed, nothing is appended and the error is its own.
   */
  lemma UnknownIfItemAborts(sec: Secretary, columns: seq<Column>, statements: seq<string>, j: nat, clause: IfClause)
    requires |columns| > 0 && j < |statements|
    requires sec.extractIfClause(statements[j]) == Some(clause)
    requires ParseIfItem(clause.ifItem).None?
    ensures TableRun(sec, columns, Some(statements)).outcome.Fail?
    ensures TableRun(sec, columns, Some(statements)) ==
      Then(ColumnRun(sec, columns[0], statements[..j]),
        Run([], Fail(IllegalIfThenStatement(statements[j], "Unknown if-item: " + clause.ifItem))))
    ensures j == 0 ==>
      (TableRun(sec, columns, Some(statements)) ==
        Run([], Fail(IllegalIfThenStatement(statements[0], "Unknown if-item: " + clause.ifItem))))
  {
    var steps := ColumnSteps(sec, columns[0], statements);
    var failed := Run([], Fail(IllegalIfThenStatement(statements[j], "Unknown if-item: " + clause.ifItem)));
    assert steps[j] == failed;
    assert steps == steps[..j] + steps[j..];
    assert steps[..j] == ColumnSteps(sec, columns[0], statements[..j]);
    SequenceAppend(steps[..j], steps[j..]);
    SequenceCons(steps[j], steps[j + 1..]);
    assert steps[j..] == [steps[j]] + steps[j + 1..];
    var column := ColumnRun(sec, columns[0], statements);
    assert column == Then(ColumnRun(sec, columns[0], statements[..j]), failed);
    TableStepsCons(sec, columns, Some(statements));
    SequenceCons(column, TableSteps(sec, columns[1..], Some(statements)));
  }

  /**
   * The worked example of a flag column: `if columnName is suffix:_FLG then notNull`
   * on a nullable column DELETE_FLG whose name the secretary hits yields exactly
   * one violation, "The column should be not-null: DELETE_FLG".
   */
  lemma NotNullFlagExample(sec: Secretary, statement: string, column: Column)
    requires sec.extractIfClause(statement) ==
      Some(IfClause("columnName", "suffix:_FLG", false, "notNull", None, "", false, false, statement))
    requires column.notNull == false
    requires sec.isHitColumn(Some(sec.toColumnName(column)), "suffix:_FLG")
    requires sec.toColumnDisp(column) == "DELETE_FLG"
    ensures TableRun(sec, [column], Some([statement])) ==
      Run([Violation("table.statement: " + statement, "The column should be not-null: DELETE_FLG")], Pass)
  {
    var clause := sec.extractIfClause(statement).value;
    assert EqualsIgnoreCase(clause.ifItem, "columnName");
    assert EqualsIgnoreCase(clause.thenClause, "notNull");
    var v := Violation("table.statement: " + statement, "The column should be not-null: DELETE_FLG");
    assert PairOutcome(sec, column, statement, clause) == ThenOutcome(sec, column, statement, clause);
    assert ParseVerdict(clause.thenClause) == Some(NotNull);
    assert "The column should be not-null: " + sec.toColumnDisp(column) == v.message;
    assert VerdictOutcome(sec, column, statement, clause) == Success(Some(v));
    assert StepOutcome(sec, column, statement) == Success(Some(v));
    assert ColumnSteps(sec, column, [statement]) == [Emit(StepOutcome(sec, column, statement))];
    SequenceSingle(Emit(StepOutcome(sec, column, statement)));
    assert TableSteps(sec, [column], Some([statement])) == [ColumnStatementRun(sec, column, Some([statement]))];
    SequenceSingle(ColumnStatementRun(sec, column, Some([statement])));
  }
}
