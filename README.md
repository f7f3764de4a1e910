# Column statements of the DBFlute schema policy check

DBFlute's schema policy check validates a schema against configured policy
statements. This project models its column statements. A column statement is
a one-line rule of the form `if <item> is [not] <hint> then <verdict-or-check>`,
for example `if columnName is suffix:_FLG then notNull` or
`if columnName is suffix:_FLG then dbType is integer`. For every column of a
table and every configured statement, in that order, the checker does four things:

1. It extracts the statement's if-clause.
2. It tests the if-subject (`columnName`, `alias` or `dbType`) against the if-hint.
3. When the if-clause fires, it evaluates the then-part. The then-part is either
   a fixed verdict (`bad` or `notNull`) or an item check of `columnName`,
   `alias`, `dbType`, `size` or `comment` against a hint.
4. It appends at most one `(policy, message)` violation to the result sink. For
   an unknown item or keyword it raises an "illegal if-then statement" error
   instead, and that error aborts the run.

The project has these files:

- `wrappers.dfy`: `Option` (a Java reference that may be null), `Outcome` (a void
  method that returns or throws) and `Result`.
- `policy_model.dfy`: the entities. These are the column, the table, the parsed
  if-clause, the violation and the errors. It also holds the `Secretary`, whose
  helpers `isHitColumn`, `isHitExp`, `toColumnName`, `toColumnDisp` and
  `extractIfClause` are inputs: every result holds for all of them. It also has
  ASCII `EqualsIgnoreCase` and Java's rendering of a null string as `"null"`.
- `policy_spec.dfy`: the reference semantics. Case-insensitive keyword chains
  become closed vocabularies (`ParseIfItem`, `ParseThenItem`, `ParseVerdict`).
  The fixed verdicts are a table over (keyword, negation). Item checks share one
  message template. A run over a table is a `Sequence` of steps, which stops at
  the first error and keeps what was appended before it.
- `policy_properties.dfy`: lemmas about the reference semantics. They cover the
  polarity rules, presence gates, message templates, policy labels, laziness of
  unknown-item errors, evaluation order, abort behaviour and bounds.
- `column_statement.dfy`: the checker as the program runs it. The class
  `SchemaPolicyColumnStatement` holds the secretary. Its methods mirror the
  Java methods: nested loops over columns and statements, and `if`-chains of
  case-insensitive comparisons with per-item message literals. They append to a
  `PolicyResult` sink and return the thrown error as an `Outcome`. Each method
  is proved to leave the sink and its outcome exactly as the reference semantics
  says.

Four behaviours of the code are easy to miss, and the model keeps each as written:

- **Unknown items are found late.** An unknown if-item, then-item or verdict
  keyword raises only when a column reaches its branch. A statement whose
  if-clause fires on no column therefore never raises.
- **`not notNull` reports "no good".** The polarity test
  `equalsIgnoreCase("bad") == !not` holds for every negated keyword other than
  `bad`, so `not notNull` reports every column that passes the if-gate as
  "no good", and `not bad` raises an unknown-then-clause error.
- **The if-side alias is not presence-gated.** A possibly-null alias is passed
  to `isHitColumn` as it is. On the if-side, only `dbType` is checked for
  presence first.
- **Extraction happens per column.** `extractIfClause` is called once per
  (column, statement) pair, inside the column loop. An empty table therefore
  never extracts anything.

## Model

| member | source | states |
|---|---|---|
| `ColumnStatement.SchemaPolicyColumnStatement.CheckColumnStatement` | dbflute-engine/src/main/java/org/dbflute/logic/doc/policycheck/DfSchemaPolicyColumnStatement.java:38-43 | the sink ends as its old contents plus the table run's violations (columns in table order), and the outcome is the run's first error or Pass |
| `ColumnStatement.SchemaPolicyColumnStatement.ProcessColumnStatement` | dbflute-engine/src/main/java/org/dbflute/logic/doc/policycheck/DfSchemaPolicyColumnStatement.java:45-53 | with no statement list nothing changes; otherwise the statements run in list order on the column, and the method stops at the first error, keeping earlier violations |
| `ColumnStatement.SchemaPolicyColumnStatement.EvaluateColumnIfClause` | dbflute-engine/src/main/java/org/dbflute/logic/doc/policycheck/DfSchemaPolicyColumnStatement.java:64-85 | the Java if-item chain appends and raises exactly what PairOutcome gives: an unknown if-item raises "Unknown if-item: " + item, and a shut gate appends nothing |
| `ColumnStatement.SchemaPolicyColumnStatement.EvaluateColumnThenClause` | dbflute-engine/src/main/java/org/dbflute/logic/doc/policycheck/DfSchemaPolicyColumnStatement.java:90-108 | the Java rule `equalsIgnoreCase("bad") == !not` and its notNull fallback append and raise exactly what the verdict table gives |
| `ColumnStatement.SchemaPolicyColumnStatement.EvaluateColumnThenItemValue` | dbflute-engine/src/main/java/org/dbflute/logic/doc/policycheck/DfSchemaPolicyColumnStatement.java:110-158 | the five per-item branches, with their presence gates and message literals, append exactly the violation of the shared template, and an unknown then-item raises |
| `PolicySpec.ParseIfItem` | dbflute-engine/src/main/java/org/dbflute/logic/doc/policycheck/DfSchemaPolicyColumnStatement.java:68-84 | each if-item is recognised exactly when the token equals `columnName`, `alias` or `dbType` ignoring case (both directions) |
| `PolicySpec.ParseThenItem` | dbflute-engine/src/main/java/org/dbflute/logic/doc/policycheck/DfSchemaPolicyColumnStatement.java:117-157 | each then-item is recognised exactly when the token equals `columnName`, `alias`, `dbType`, `size` or `comment` ignoring case |
| `PolicySpec.ParseVerdict` | dbflute-engine/src/main/java/org/dbflute/logic/doc/policycheck/DfSchemaPolicyColumnStatement.java:98-100 | `Bad` exactly for `bad` and `NotNull` exactly for `notNull`, ignoring case |
| `PolicySpec.ThenSubject` | dbflute-engine/src/main/java/org/dbflute/logic/doc/policycheck/DfSchemaPolicyColumnStatement.java:117-154 | presence gates: the name is always checked; alias and comment only with an alias; db-type only with a db-type; size only with a size; only the comment may be null; each checked value is the column's own attribute (alias, db-type, size, comment) |
| `PolicySpec.ItemHead` | dbflute-engine/src/main/java/org/dbflute/logic/doc/policycheck/DfSchemaPolicyColumnStatement.java:121-152 | every item message opens "The column <label> should " with labels name, alias, db-type, size, comment |
| `PolicySpec.PairOutcome` | dbflute-engine/src/main/java/org/dbflute/logic/doc/policycheck/DfSchemaPolicyColumnStatement.java:64-85 | an unknown if-item is the illegal-statement error, a gate that does not fire appends nothing, and any violation is labelled "table.statement: " + the statement |
| `PolicySpec.Emit` | dbflute-engine/src/main/java/org/dbflute/logic/doc/policycheck/DfSchemaPolicyColumnStatement.java:91-157 | one (column, statement) evaluation appends at most one violation, and fails exactly when it raised |
| `PolicyProperties.PolicyLabelNamesStatement` | dbflute-engine/src/main/java/org/dbflute/logic/doc/policycheck/DfSchemaPolicyColumnStatement.java:179-181 | the label is "table.statement: " followed by the statement, so two labels are equal exactly when their statements are |
| `PolicyProperties.IfGate` | dbflute-engine/src/main/java/org/dbflute/logic/doc/policycheck/DfSchemaPolicyColumnStatement.java:68-81 | the then-clause is evaluated exactly when hit == !not: columnName and alias via isHitColumn with no presence check, dbType via isHitExp and only when present |
| `PolicyProperties.VerdictPolarity` | dbflute-engine/src/main/java/org/dbflute/logic/doc/policycheck/DfSchemaPolicyColumnStatement.java:96-106 | "no good" exactly when (keyword is bad) == !not; otherwise notNull violates exactly when !notNull == !not; otherwise an unknown-then-clause error |
| `PolicyProperties.VerdictQuirks` | dbflute-engine/src/main/java/org/dbflute/logic/doc/policycheck/DfSchemaPolicyColumnStatement.java:96-106 | any negated keyword other than bad, `not notNull` included, yields "no good", and `not bad` is an error |
| `PolicyProperties.BadAlwaysViolates` | dbflute-engine/src/main/java/org/dbflute/logic/doc/policycheck/DfSchemaPolicyColumnStatement.java:98-99 | an unnegated bad reports every column that reaches the then-clause with "The column is no good: " + display |
| `PolicyProperties.ItemCheck` | dbflute-engine/src/main/java/org/dbflute/logic/doc/policycheck/DfSchemaPolicyColumnStatement.java:116-157 | with the attribute present, a violation appears exactly when !hit == !not, with message "The column <label> should " + ("not " if negated) + "be " + hint + " but " + actual + ": " + display; an unknown item raises "Unknown then-item: " + item |
| `PolicyProperties.NegationFlipsOnlyTheVerdict` | dbflute-engine/src/main/java/org/dbflute/logic/doc/policycheck/DfSchemaPolicyColumnStatement.java:117-154 | an absent gated attribute never violates under either polarity; with it present, exactly one of a clause and its negation violates |
| `PolicyProperties.CommentGatedOnAlias` | dbflute-engine/src/main/java/org/dbflute/logic/doc/policycheck/DfSchemaPolicyColumnStatement.java:147-154 | without an alias the comment check never runs; with an alias but no comment it checks a null comment |
| `PolicyProperties.SequenceAppend` | dbflute-engine/src/main/java/org/dbflute/logic/doc/policycheck/DfSchemaPolicyColumnStatement.java:38-53 | steps run in order: the run of r1 + r2 is the run of r1 followed, unless it raised, by the run of r2 |
| `PolicyProperties.RecordStep` | dbflute-engine/src/main/java/org/dbflute/logic/doc/policycheck/DfSchemaPolicyColumnStatement.java:40-50 | appending one step's violations to the first i steps' gives the first i + 1 steps'; a failed step leaves exactly the whole run's violations and error |
| `PolicyProperties.SequenceEmittedByStep` | dbflute-engine/src/main/java/org/dbflute/logic/doc/policycheck/DfSchemaPolicyColumnStatement.java:38-53 | every violation of a run was appended by one of its steps |
| `PolicyProperties.NoStatementsNoEffect` | dbflute-engine/src/main/java/org/dbflute/logic/doc/policycheck/DfSchemaPolicyColumnStatement.java:47-52 | with no statement list nothing is appended and nothing raised, whatever the columns |
| `PolicyProperties.ColumnRunBound` | dbflute-engine/src/main/java/org/dbflute/logic/doc/policycheck/DfSchemaPolicyColumnStatement.java:49-51 | a column appends at most one violation per statement |
| `PolicyProperties.TableRunBound` | dbflute-engine/src/main/java/org/dbflute/logic/doc/policycheck/DfSchemaPolicyColumnStatement.java:38-53 | a run appends at most \|columns\| * \|statements\| violations |
| `PolicyProperties.PairsAt` | dbflute-engine/src/main/java/org/dbflute/logic/doc/policycheck/DfSchemaPolicyColumnStatement.java:40-49 | pair number i * \|statements\| + j of the evaluation order is column i with statement j |
| `PolicyProperties.TableRunInPairOrder` | dbflute-engine/src/main/java/org/dbflute/logic/doc/policycheck/DfSchemaPolicyColumnStatement.java:38-53 | a run is the (column, statement) pairs evaluated column by column, and within a column in list order, stopping at the first error |
| `PolicyProperties.ColumnRunLabels` | dbflute-engine/src/main/java/org/dbflute/logic/doc/policycheck/DfSchemaPolicyColumnStatement.java:49-50 | every violation a column's run appends is labelled "table.statement: " + the extracted statement of a listed statement |
| `PolicyProperties.TableRunLabels` | dbflute-engine/src/main/java/org/dbflute/logic/doc/policycheck/DfSchemaPolicyColumnStatement.java:91-112 | every violation of a whole run carries the label of one of the listed statements |
| `PolicyProperties.UnfiredStatementIsSilent` | dbflute-engine/src/main/java/org/dbflute/logic/doc/policycheck/DfSchemaPolicyColumnStatement.java:64-85 | a statement whose if-clause fires on no column appends and raises nothing, even with an unknown then-item or keyword |
| `PolicyProperties.UnfiredStatementDrops` | dbflute-engine/src/main/java/org/dbflute/logic/doc/policycheck/DfSchemaPolicyColumnStatement.java:45-85 | in a statement list of any length, removing a statement whose if-clause fires on no column leaves the whole run unchanged, whatever its then-part holds |
| `PolicyProperties.UnknownIfItemAborts` | dbflute-engine/src/main/java/org/dbflute/logic/doc/policycheck/DfSchemaPolicyColumnStatement.java:45-85 | a listed statement with an unknown if-item ends the run on the first column: the run is the first column's run of the statements before it, followed (unless one of those already raised) by "Unknown if-item: " + item; the later statements and columns never run, and when it is listed first nothing is appended |
| `PolicyProperties.NotNullFlagExample` | dbflute-engine/src/main/java/org/dbflute/logic/doc/policycheck/DfSchemaPolicyColumnStatement.java:61-103 | `if columnName is suffix:_FLG then notNull` on a nullable DELETE_FLG whose name hits yields exactly the violation "The column should be not-null: DELETE_FLG" |

## Left out

- The secretary (`DfSchemaPolicyMiscSecretary`) is not part of this model.
  `isHitColumn`, `isHitExp`, `toColumnName`, `toColumnDisp` and
  `extractIfClause` are taken as arbitrary functions. No prefix, suffix or
  contain semantics is assumed for hints. They are total functions, so the
  model assumes they always return and never throw. Examples are `isHitColumn`
  on a possibly-null alias (line 73) and `isHitExp` on a possibly-null comment
  (line 150). Parsing statement text is not modelled, and an extraction failure
  becomes the `MalformedStatement` error.
- The text of the illegal-statement exception is not modelled. The secretary
  builds it. The model keeps the statement and the additional detail that this
  file builds ("Unknown if-item: ", "Unknown then-clause: ", "Unknown then-item: ").
- `throwSchemaPolicyCheckUnknownThemeException` and
  `throwSchemaPolicyCheckUnknownPropertyException` are not modelled. Nothing in
  this file calls them.
- Torque's `Table` and `Column` become plain datatypes. `hasAlias()`,
  `hasDbType()` and `hasColumnSize()` mean "the attribute is `Some`". Torque's
  own presence tests, for example on blank strings, are not part of this model.
- The untyped column-map lookup of `"statementList"` and its unchecked cast
  become an optional sequence of statements.
- `equalsIgnoreCase` folds ASCII letters only. Unicode case folding is not
  modelled.
- Java's `NullPointerException`s are not modelled. Examples are a null
  if-item, or a null then-clause when there is no then-item. Strings in the
  model are never null, except where a possibly-null value is an `Option`.
- The result sink (`DfSchemaPolicyResult`) is modelled only through
  `addViolation`, as an append to a sequence.
