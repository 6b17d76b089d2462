/**
 * `handle_db_error`: turns a rusqlite error into an `anyhow` error whose
 * root message names the violated constraint and whose context says what
 * it means for the user; `execute_with_error_handling` wraps an operation's
 * result with it and one more context line.
 */
module DbErrors {
  import opened Wrappers
  import opened Strings

  /**
   * A rusqlite error: `SqliteFailure` carries the rendered SQLite error
   * code and the optional message; every other variant is seen only
   * through its `Display` text.
   */
  datatype SqliteError = SqliteFailure(code: string, message: Option<string>) | OtherError(display: string)

  /** `Display` of a rusqlite error: the message when there is one, else the code. */
  function SqliteDisplay(e: SqliteError): string
  {
    match e
    case SqliteFailure(code, None) => code
    case SqliteFailure(_, Some(m)) => m
    case OtherError(d) => d
  }

  /** An `anyhow::Error`: the root message and the contexts added to it, innermost first. */
  datatype AnyError = AnyError(root: string, contexts: seq<string>)

  /** `{}` shows only the outermost context, or the root when there is none. */
  function Display(e: AnyError): string
  {
    if e.contexts == [] then e.root else e.contexts[|e.contexts| - 1]
  }

  /** `.context(c)`: `c` becomes the outermost message. */
  function WithContext(e: AnyError, c: string): (r: AnyError)
    ensures Display(r) == c && r.root == e.root
  {
    AnyError(e.root, e.contexts + [c])
  }

  datatype Violation = Unique | ForeignKey | NotNull | Generic

  const UNIQUE_PATTERN: string := "UNIQUE constraint"
  const FOREIGN_KEY_PATTERN: string := "FOREIGN KEY constraint"
  const NOT_NULL_PATTERN: string := "NOT NULL constraint"

  const UNIQUE_HINT: string := "A record with this value already exists"
  const FOREIGN_KEY_HINT: string := "Referenced record does not exist"
  const NOT_NULL_HINT: string := "A required field is missing"
  const GENERIC_PREFIX: string := "Database error: "
  const OPERATION_FAILED: string := "Database operation failed"

  /** `handle_db_error`: the pattern checks in order, UNIQUE first; no message or another kind of error is generic. */
  function HandleDbError(e: SqliteError): AnyError
  {
    match e
    case SqliteFailure(_, Some(m)) =>
      if Contains(m, UNIQUE_PATTERN) then
        WithContext(AnyError("Unique constraint violation: " + m, []), UNIQUE_HINT)
      else if Contains(m, FOREIGN_KEY_PATTERN) then
        WithContext(AnyError("Foreign key constraint violation: " + m, []), FOREIGN_KEY_HINT)
      else if Contains(m, NOT_NULL_PATTERN) then
        WithContext(AnyError("Not null constraint violation: " + m, []), NOT_NULL_HINT)
      else AnyError(GENERIC_PREFIX + m, [])
    case SqliteFailure(code, None) => AnyError(GENERIC_PREFIX + code, [])
    case OtherError(d) => AnyError(GENERIC_PREFIX + d, [])
  }

  // ---------------------------------------------------------------------------
  // A reference classification: the first rule, in priority order, whose pattern the message contains

  datatype Rule = Rule(pattern: string, kind: Violation, prefix: string, hint: string)

  const RULES: seq<Rule> := [
    Rule(UNIQUE_PATTERN, Unique, "Unique constraint violation: ", UNIQUE_HINT),
    Rule(FOREIGN_KEY_PATTERN, ForeignKey, "Foreign key constraint violation: ", FOREIGN_KEY_HINT),
    Rule(NOT_NULL_PATTERN, NotNull, "Not null constraint violation: ", NOT_NULL_HINT)]

  /** The first of `rules` whose pattern occurs in `m`. */
  function FirstRule(rules: seq<Rule>, m: string): (r: Option<Rule>)
    ensures r.Some? ==> r.value in rules && Contains(m, r.value.pattern)
    ensures r.None? <==> forall i :: 0 <= i < |rules| ==> !Contains(m, rules[i].pattern)
  {
    if rules == [] then None
    else if Contains(m, rules[0].pattern) then Some(rules[0])
    else
      var r := FirstRule(rules[1..], m);
      assert forall i :: 1 <= i < |rules| ==> rules[i] == rules[1..][i - 1];
      r
  }

  /** `FirstRule` over the three rules, written out. */
  lemma FirstRuleOfRules(m: string)
    ensures FirstRule(RULES, m) ==
      if Contains(m, UNIQUE_PATTERN) then Some(RULES[0])
      else if Contains(m, FOREIGN_KEY_PATTERN) then Some(RULES[1])
      else if Contains(m, NOT_NULL_PATTERN) then Some(RULES[2])
      else None
  {
    assert RULES[1..][1..][1..] == [];
  }

  /** The violation a failure reports; everything without a message is generic. */
  function Classify(e: SqliteError): Violation
  {
    match e
    case SqliteFailure(_, Some(m)) => (match FirstRule(RULES, m) case Some(rule) => rule.kind case None => Generic)
    case _ => Generic
  }

  /** The rule table agrees with `handle_db_error`: the first matching rule gives the root message and the single context. */
  lemma HandleDbErrorFollowsRules(code: string, m: string)
    ensures var r := HandleDbError(SqliteFailure(code, Some(m)));
      match FirstRule(RULES, m)
      case Some(rule) => r == AnyError(rule.prefix + m, [rule.hint])
      case None => r == AnyError(GENERIC_PREFIX + m, [])
  {
    FirstRuleOfRules(m);
  }

  /**
   * The kinds in priority order: a UNIQUE message is a unique violation
   * whatever else it mentions, FOREIGN KEY counts only without UNIQUE,
   * NOT NULL only without both.
   */
  lemma ClassifyPriority(code: string, m: string)
    ensures var k := Classify(SqliteFailure(code, Some(m)));
      && (k == Unique <==> Contains(m, UNIQUE_PATTERN))
      && (k == ForeignKey <==> !Contains(m, UNIQUE_PATTERN) && Contains(m, FOREIGN_KEY_PATTERN))
      && (k == NotNull <==> !Contains(m, UNIQUE_PATTERN) && !Contains(m, FOREIGN_KEY_PATTERN) && Contains(m, NOT_NULL_PATTERN))
      && (k == Generic <==> !Contains(m, UNIQUE_PATTERN) && !Contains(m, FOREIGN_KEY_PATTERN) && !Contains(m, NOT_NULL_PATTERN))
  {
    FirstRuleOfRules(m);
  }

  /**
   * What the user sees: the hint for a classified violation, otherwise
   * `Database error: ` and SQLite's own text, which the root message always
   * ends with.
   */
  lemma HandleDbErrorShows(e: SqliteError)
    ensures var r := HandleDbError(e);
      && EndsWith(r.root, SqliteDisplay(e))
      && (Classify(e) == Generic <==> r.contexts == [])
      && (Classify(e) == Generic ==> Display(r) == GENERIC_PREFIX + SqliteDisplay(e))
      && (Classify(e) == Unique ==> Display(r) == UNIQUE_HINT)
      && (Classify(e) == ForeignKey ==> Display(r) == FOREIGN_KEY_HINT)
      && (Classify(e) == NotNull ==> Display(r) == NOT_NULL_HINT)
  {
    var r := HandleDbError(e);
    var d := SqliteDisplay(e);
    if e.SqliteFailure? && e.message.Some? {
      HandleDbErrorFollowsRules(e.code, e.message.value);
      FirstRuleOfRules(d);
      match FirstRule(RULES, d)
      case Some(rule) => assert r.root == rule.prefix + d;
      case None => assert r.root == GENERIC_PREFIX + d;
    } else {
      assert r.root == GENERIC_PREFIX + d;
    }
  }

  // ---------------------------------------------------------------------------
  // execute_with_error_handling

  /** What a rusqlite operation returns. */
  datatype SqlResult<R> = SqlOk(value: R) | SqlErr(error: SqliteError)

  /** An `anyhow::Result` with the whole error chain kept. */
  datatype Outcome<R> = Success(value: R) | Failure(error: AnyError)

  /** `operation().map_err(handle_db_error).context("Database operation failed")`, the operation's result given. */
  function ExecuteWithErrorHandling<R>(result: SqlResult<R>): Outcome<R>
  {
    match result
    case SqlOk(v) => Success(v)
    case SqlErr(e) => Failure(WithContext(HandleDbError(e), OPERATION_FAILED))
  }

  /** A success passes through unchanged; a failure shows the outer context over the classified error. */
  lemma ExecuteWithErrorHandlingMeaning<R>(result: SqlResult<R>)
    ensures var r := ExecuteWithErrorHandling(result);
      && (r.Success? <==> result.SqlOk?)
      && (r.Success? ==> r.value == result.value)
      && (r.Failure? ==>
            && Display(r.error) == OPERATION_FAILED
            && r.error.root == HandleDbError(result.error).root
            && r.error.contexts == HandleDbError(result.error).contexts + [OPERATION_FAILED])
  {
  }
}
