/** The parts of the Pipeline schema that scheduling and substitution read. */
module Types {
  import opened Wrappers

  datatype ParamValue =
    | StringValue(s: string)
    | ArrayValue(items: seq<string>)
    | ObjectValue(fields: map<string, string>)

  /** Go's StringVal field: empty on array and object values. */
  function StringVal(v: ParamValue): string {
    if v.StringValue? then v.s else ""
  }

  /** The text of a value, none for arrays and objects. */
  function TextOf(v: ParamValue): string {
    match v
    case StringValue(s) => s
    case ArrayValue(_) => ""
    case ObjectValue(_) => ""
  }

  datatype Param = Param(name: string, value: ParamValue)

  /** The operator after lower-casing; any other word is ignored by evaluation. */
  datatype Operator = In | NotIn | OtherOperator

  datatype WhenExpression = WhenExpression(input: string, operator: Operator, values: seq<string>)

  datatype MatrixParam = MatrixParam(name: string, value: seq<string>)

  datatype MatrixInclude = MatrixInclude(name: string, params: seq<Param>)

  datatype Matrix = Matrix(params: seq<MatrixParam>, include_: seq<MatrixInclude>)

  /** Which row of which matrix task an expansion is. */
  datatype MatrixInfo = MatrixInfo(parent: string, index: nat, of: nat, params: map<string, string>,
    includeName: string)

  /** resolverParams is None when the task has no taskRef. */
  datatype PipelineTask = PipelineTask(
    name: string,
    params: seq<Param>,
    runAfter: seq<string>,
    when: seq<WhenExpression>,
    resolverParams: Option<seq<Param>>,
    matrix: Option<Matrix>,
    info: Option<MatrixInfo>)

  datatype Pipeline = Pipeline(tasks: seq<PipelineTask>, finallyTasks: seq<PipelineTask>)
}
