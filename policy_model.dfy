/**
 * The entities the column-statement checker works on: the columns of a table,
 * a policy statement already parsed into its if-clause, the violations it reports,
 * the errors it raises, and the helper ("secretary") whose matching and display
 * functions are not part of this model and are therefore taken as inputs.
 */
module PolicyModel {
  import opened Wrappers

  /**
   * One column of the schema, as far as the checker reads it. An absent
   * alias, db-type, size or comment is `None` (`hasAlias()`, `hasDbType()`,
   * `hasColumnSize()` hold exactly when the attribute is `Some`). The name
   * is read only by the secretary's `toColumnName` and `toColumnDisp`.
   */
  datatype Column = Column(
    name: string,
    alias: Option<string>,
    dbType: Option<string>,
    columnSize: Option<string>,
    comment: Option<string>,
    notNull: bool)

  /** A table; only its column list is read. */
  datatype Table = Table(columnList: seq<Column>)

  /**
   * A statement such as `if columnName is suffix:_FLG then notNull`, as the
   * secretary extracts it: the if-item and its hint, and either a then-item with
   * its hint or a bare then-clause keyword, each with its own `not`.
   */
  datatype IfClause = IfClause(
    ifItem: string,
    ifValue: string,
    notIfValue: bool,
    thenClause: string,
    thenItem: Option<string>,
    thenValue: string,
    notThenValue: bool,
    notThenClause: bool,
    statement: string)

  /** One entry of the result sink: the policy label and the message. */
  datatype Violation = Violation(policy: string, message: string)

  /** What aborts a check run. */
  datatype PolicyError =
    /** "illegal if-then statement", with the statement and the additional detail */
    | IllegalIfThenStatement(statement: string, additional: string)
    /** the secretary could not extract an if-clause from the statement */
    | MalformedStatement(statement: string)

  /**
   * The helper functions the checker delegates to. Their definitions are not
   * part of this model: every property proved here holds for all of them.
   * Subjects are optional because the checker passes attributes that may be null.
   */
  datatype Secretary = Secretary(
    isHitColumn: (Option<string>, string) -> bool,
    isHitExp: (Option<string>, string) -> bool,
    toColumnName: Column -> string,
    toColumnDisp: Column -> string,
    extractIfClause: string -> Option<IfClause>)

  /**
   * ASCII lower-case folding of one character: no upper-case letter survives,
   * and the result is a lower-case letter exactly when the input was a letter.
   */
  function LowerAscii(c: char): (d: char)
    ensures !('A' <= d <= 'Z')
    ensures ('a' <= d <= 'z') <==> ('a' <= c <= 'z' || 'A' <= c <= 'Z')
  {
    if 'A' <= c <= 'Z' then (c as int + 32) as char else c
  }

  /** Java's `equalsIgnoreCase`, restricted to ASCII case folding. */
  predicate EqualsIgnoreCase(a: string, b: string)
  {
    |a| == |b| && forall i :: 0 <= i < |a| ==> LowerAscii(a[i]) == LowerAscii(b[i])
  }

  /** How Java's string concatenation renders a possibly-null string. */
  function JavaString(s: Option<string>): string
  {
    match s
    case Some(v) => v
    case None => "null"
  }

  /** The `notOr` prefix of the messages: "not " for a negated clause. */
  function NotOr(negated: bool): string
  {
    if negated then "not " else ""
  }
}
