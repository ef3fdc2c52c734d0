/** The data the query engine works on: the query syntax tree the NXQL
    parser produces (the shapes pinned down in
    packages/parser/src/lib/query-parser.spec.ts), the stored projects, the
    result envelope (packages/parser/src/lib/query-result.ts), and the
    errors the engine raises with their message texts. */
module QueryAst {
  import opened Wrappers
  import opened Records
  import opened Values

  /** A literal on the right of a comparison: `'world'`, `42`, `true`. */
  datatype Literal = LStr(s: string) | LNum(n: int) | LBool(b: bool)

  /** The JavaScript value of a literal. */
  function LiteralValue(l: Literal): (v: Value)
    ensures v.Str? || v.Num? || v.Bool?
  {
    match l
    case LStr(s) => Str(s)
    case LNum(n) => Num(n)
    case LBool(b) => Bool(b)
  }

  /** `{ type: 'All' }`, `{ type: 'List', … }` or any other selection node,
      identified by its `type`. */
  datatype Selection = Selection(kind: string)

  /** The `type` of a condition node that is neither a comparison nor an
      `IN` expression. */
  type OtherConditionType = t: string | t != "ComparisonExpression" && t != "InExpression" witness "BinaryExpression"

  /** A `WHERE` condition. */
  datatype Condition =
    | Comparison(left: string, operator: string, right: Literal)   // `ComparisonExpression`
    | Membership(value: string, target: string)                    // `InExpression`
    | OtherCondition(kind: OtherConditionType)                     // any other node type

  /** The condition node's `type` field. */
  function ConditionType(c: Condition): string {
    match c
    case Comparison(_, _, _) => "ComparisonExpression"
    case Membership(_, _) => "InExpression"
    case OtherCondition(kind) => kind
  }

  /** The node's `type` tells the three kinds of condition apart. */
  lemma ConditionTypeDecides(c: Condition)
    ensures ConditionType(c) == "ComparisonExpression" <==> c.Comparison?
    ensures ConditionType(c) == "InExpression" <==> c.Membership?
  {
  }

  /** `{ type: 'Query', selection, source, condition? }` */
  datatype Query = Query(selection: Selection, source: string, condition: Option<Condition>)

  /** A stored project: the attributes `normalizeProject` reads, and its
      custom fields when it has any. */
  datatype Project = Project(
    name: Value,
    projectType: Value,
    tags: Value,
    root: Value,
    sourceRoot: Value,
    targets: Value,
    implicitDependencies: Value,
    dependencies: Value,
    customFields: Option<Record<Value>>)

  /** `ProjectsMap`: the dataset, keyed by project name. */
  type ProjectsMap = Record<Project>

  /** `QueryResult`: the rows, their number and the normalised selection. */
  datatype QueryResult = QueryResult(results: seq<Record<Value>>, total: int, selection: seq<string>)

  /** The errors raised while a query runs, inside the `try` block of
      `runQueryAsync`. */
  datatype EngineError =
    | SelectionNotSupported(kind: string)
    | InvalidRightValue(right: Literal)
    | MissingField(left: string)
    | NotNumberComparison(leftValue: Value, operator: string, right: Literal)
    | UnsupportedOperator(operator: string)
    | UnsupportedCondition(conditionType: string)
    | InvalidSelectionKey(key: string, available: seq<string>)

  /** The errors `runQueryAsync` raises: the two checks before the `try`
      block, and whatever the block raised, re-raised with a prefix. */
  datatype QueryError =
    | UnsupportedSource(source: string)
    | UnsupportedSelectionType(kind: string)
    | ExecutionFailed(cause: EngineError)

  /** The message of an engine error. */
  function EngineMessage(e: EngineError): string {
    match e
    case SelectionNotSupported(kind) => "Unsupported selection type: " + kind
    case InvalidRightValue(right) =>
      "Invalid condition right value: " + Show(LiteralValue(right)) + ". Expected a string."
    case MissingField(left) =>
      "Invalid condition left value: " + left + ". Project does not have this field."
    case NotNumberComparison(leftValue, operator, right) =>
      "Invalid comparison: " + Show(leftValue) + " " + operator + " " + Show(LiteralValue(right))
      + ". Both sides must be numbers."
    case UnsupportedOperator(operator) => "Unsupported operator: " + operator
    case UnsupportedCondition(conditionType) =>
      "Unsupported condition type: " + conditionType + ". Currently only 'ComparisonExpression' is supported."
    case InvalidSelectionKey(key, available) =>
      "Invalid selection key: " + key + ". Available keys are: " + Join(available, ", ")
  }

  const ExecutionPrefix: string := "Error executing query: "

  /** The message of the error `runQueryAsync` raises. */
  function QueryMessage(e: QueryError): string {
    match e
    case UnsupportedSource(source) =>
      "Unsupported source: " + source + ". Currently only 'projects' is supported."
    case UnsupportedSelectionType(kind) =>
      "Unsupported selection type: " + kind + ". Currently only '*' is supported."
    case ExecutionFailed(cause) => ExecutionPrefix + EngineMessage(cause)
  }

  /** An error raised inside the `try` block reaches the caller as the
      block's message behind the prefix; the two earlier checks do not carry it. */
  lemma PrefixMarksExecutionErrors(e: QueryError)
    ensures e.ExecutionFailed? ==>
      QueryMessage(e)[..|ExecutionPrefix|] == ExecutionPrefix
      && QueryMessage(e)[|ExecutionPrefix|..] == EngineMessage(e.cause)
    ensures !e.ExecutionFailed? ==> QueryMessage(e)[..|ExecutionPrefix|] != ExecutionPrefix
  {
    if e.UnsupportedSource? {
      assert QueryMessage(e)[0] == 'U';
    } else if e.UnsupportedSelectionType? {
      assert QueryMessage(e)[0] == 'U';
    }
  }
}
