/**
 * The array-encoded source AST of a workflow and the compiled block tree it
 * is lowered to (the `CompiledBlock`, `ContentBlock` and `CompiledBlockArg`
 * shapes of the flow editor).
 */
module FlowGraph {
  import opened Results

  /** The tags that `convert_operation` dispatches on before its default branch. */
  predicate IsDispatchTag(t: string)
  {
    t == "wait_for_monitor" || t == "command_call_service" || t == "control_if_else" || t == "op_fork_execution"
  }

  /** A tag that reaches the default branch: `operator_and`, `flow_last_value`, `services.*`, ... */
  type FreeTag = t: string | !IsDispatchTag(t) witness "flow_last_value"

  /** A JSON scalar, as held by a monitor's `expected_value`. */
  datatype Literal = LStr(s: string) | LNum(n: int) | LBool(b: bool) | LNull

  /** `{ monitor_id: { from_service }, expected_value }` */
  datatype Monitor = Monitor(fromService: string, expected: Literal)

  // ---------------------------------------------------------------- source AST

  /** `SimpleArrayAstArgument`: a string or number literal, or a nested operation. */
  datatype Arg = Str(s: string) | Num(n: int) | Nested(op: Op)

  /**
   * `SimpleArrayAstOperation`: a tag at position 0, then positional fields.
   * `IfElse` holds every field after the condition (`op.slice(2)`), so it may
   * carry any number of branch lists.
   */
  datatype Op =
    | WaitForMonitor(monitor: Monitor)
    | CallService(serviceId: string, serviceAction: string, callValues: seq<Arg>)
    | IfElse(cond: Arg, branches: seq<Branch>)
    | Fork(forkArgs: seq<Arg>, paths: seq<Branch>)
    | Generic(tag: FreeTag, fields: seq<Arg>)

  /** One branch of an if/else or one path of a fork: an operation list. */
  datatype Branch = Branch(entries: seq<Entry>)

  /** An element of an operation list: an operation, or a bare string where one was expected. */
  datatype Entry = Operation(op: Op) | Stray(s: string)

  /** The string at position 0 of an operation. */
  function Tag(op: Op): string
  {
    match op
    case WaitForMonitor(_) => "wait_for_monitor"
    case CallService(_, _, _) => "command_call_service"
    case IfElse(_, _) => "control_if_else"
    case Fork(_, _) => "op_fork_execution"
    case Generic(t, _) => t
  }

  // ------------------------------------------------------------ compiled tree

  /** `CompiledBlockArg`: `{type: 'constant', value}` or `{type: 'block', value: [...]}`. */
  datatype CArg = Constant(value: string) | BlockArg(blocks: seq<Block>)

  /** The three shapes of a block's `args`. */
  datatype Args =
    | ArgList(list: seq<CArg>)
    | Raw(monitor: Monitor)
    | CallDict(serviceId: string, serviceAction: string, values: seq<CArg>)

  /** `CompiledBlock`; `id` is absent until the linker assigns one. */
  datatype Block = Block(id: Option<string>, kind: string, args: Args, contents: seq<Content>)

  /** An element of `contents`: a block, or an anonymous `ContentBlock`. */
  datatype Content = B(block: Block) | CB(contents: seq<Content>)

  /** `CompiledFlowGraph` */
  type Graph = seq<Block>
}
