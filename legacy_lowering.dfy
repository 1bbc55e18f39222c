/**
 * Lowering as done by the older test helpers: the same dispatch as the newer
 * one without fork support, without the argument-array guard (a bare string
 * in operation position fails on `args.map` instead), and with
 * `gen_compiled` a plain `map` that does no linking.
 */
module LegacyLowering {
  import opened Results
  import opened Text
  import opened FlowGraph
  import Lowering

  /** The exception the older helpers raise: calling `.map` on something that is not an array. */
  datatype TypeError = NotAFunction(expression: string)

  /** The one failure of older lowering: `args.map` on the `slice(1)` of a string. */
  const ArgsMapFails := NotAFunction("args.map")

  // ------------------------------------------------------- accepted input

  /** The older AST type has no fork operation, at any depth. */
  predicate OpNoFork(op: Op)
  {
    match op
    case WaitForMonitor(_) => true
    case CallService(_, _, vs) => forall i :: 0 <= i < |vs| ==> ArgNoFork(vs[i])
    case IfElse(c, bs) => ArgNoFork(c) && forall i :: 0 <= i < |bs| ==> BranchNoFork(bs[i])
    case Fork(_, _) => false
    case Generic(_, fs) => forall i :: 0 <= i < |fs| ==> ArgNoFork(fs[i])
  }

  predicate ArgNoFork(a: Arg)
  {
    a.Nested? ==> OpNoFork(a.op)
  }

  predicate EntryNoFork(e: Entry)
  {
    e.Operation? ==> OpNoFork(e.op)
  }

  predicate BranchNoFork(b: Branch)
  {
    forall j :: 0 <= j < |b.entries| ==> EntryNoFork(b.entries[j])
  }

  // ------------------------------------------------------------ lowering

  /** `convert_argument` */
  function ConvertArgument(a: Arg): Result<CArg, TypeError>
    requires ArgNoFork(a)
  {
    match a
    case Str(s) => Ok(Constant(s))
    case Num(n) => Ok(Constant(IntToString(n)))
    case Nested(op) =>
      match ConvertOperation(op)
      case Err(e) => Err(e)
      case Ok(b) => Ok(BlockArg([b]))
  }

  /** `values.map(v => convert_argument(v))` */
  function ConvertArgs(xs: seq<Arg>): Result<seq<CArg>, TypeError>
    requires forall i :: 0 <= i < |xs| ==> ArgNoFork(xs[i])
  {
    if xs == [] then Ok([])
    else
      match ConvertArgument(xs[0])
      case Err(e) => Err(e)
      case Ok(a) =>
        match ConvertArgs(xs[1..])
        case Err(e) => Err(e)
        case Ok(rest) => Ok([a] + rest)
  }

  /**
   * `convert_content_single`, and `convert_operation` on an element of the
   * top-level list: a bare string reaches the default branch, whose
   * `slice(1)` is a string without `map`.
   */
  function ConvertContentSingle(e: Entry): Result<Block, TypeError>
    requires EntryNoFork(e)
  {
    match e
    case Stray(_) => Err(ArgsMapFails)
    case Operation(op) => ConvertOperation(op)
  }

  /** `contents.map(v => convert_content_single(v))` */
  function ConvertEntries(es: seq<Entry>): Result<Graph, TypeError>
    requires forall i :: 0 <= i < |es| ==> EntryNoFork(es[i])
    decreases es, 0
  {
    if es == [] then Ok([])
    else
      match ConvertContentSingle(es[0])
      case Err(e) => Err(e)
      case Ok(b) =>
        match ConvertEntries(es[1..])
        case Err(e) => Err(e)
        case Ok(rest) => Ok([b] + rest)
  }

  /** `convert_contents` */
  function ConvertContents(es: seq<Entry>): Result<Content, TypeError>
    requires forall i :: 0 <= i < |es| ==> EntryNoFork(es[i])
    decreases es, 1
  {
    match ConvertEntries(es)
    case Err(e) => Err(e)
    case Ok(bs) => Ok(CB(Lowering.AsContents(bs)))
  }

  /** `op.slice(2).map(v => convert_contents(v))` */
  function ConvertBranches(bss: seq<Branch>): Result<seq<Content>, TypeError>
    requires forall i :: 0 <= i < |bss| ==> BranchNoFork(bss[i])
  {
    if bss == [] then Ok([])
    else
      assert BranchNoFork(bss[0]);
      match ConvertContents(bss[0].entries)
      case Err(e) => Err(e)
      case Ok(c) =>
        match ConvertBranches(bss[1..])
        case Err(e) => Err(e)
        case Ok(rest) => Ok([c] + rest)
  }

  /** `convert_operation`: branch lists are lowered before the condition. */
  function ConvertOperation(op: Op): (r: Result<Block, TypeError>)
    requires OpNoFork(op)
    ensures r.Ok? ==> r.value.kind == Tag(op) && r.value.id == None
  {
    match op
    case WaitForMonitor(m) => Ok(Block(None, "wait_for_monitor", Raw(m), []))
    case CallService(sid, action, values) =>
      (match ConvertArgs(values)
       case Err(e) => Err(e)
       case Ok(vs) => Ok(Block(None, "command_call_service", CallDict(sid, action, vs), [])))
    case IfElse(cond, branches) =>
      (match ConvertBranches(branches)
       case Err(e) => Err(e)
       case Ok(cs) =>
         match ConvertArgument(cond)
         case Err(e) => Err(e)
         case Ok(c) => Ok(Block(None, "control_if_else", ArgList([c]), Lowering.PadOnce(cs))))
    case Generic(tag, fields) =>
      match ConvertArgs(fields)
      case Err(e) => Err(e)
      case Ok(xs) => Ok(Block(None, tag, ArgList(xs), []))
  }

  /** `gen_compiled`: `ast.map(v => convert_operation(v))`, nothing linked. */
  function GenCompiled(ast: seq<Entry>): Result<Graph, TypeError>
    requires forall i :: 0 <= i < |ast| ==> EntryNoFork(ast[i])
  {
    ConvertEntries(ast)
  }

  // ------------------------------------------------- agreement with the newer lowering

  /** The older helpers fail where the newer ones do, with a `TypeError` instead. */
  function AsLegacy<T>(r: Result<T, Lowering.CompileError>): Result<T, TypeError>
  {
    match r
    case Ok(v) => Ok(v)
    case Err(_) => Err(ArgsMapFails)
  }

  /**
   * On every input the older type admits, the two generations build the
   * same tree, and fail on the same inputs.
   */
  lemma {:induction false} OperationAgrees(op: Op)
    requires OpNoFork(op)
    ensures ConvertOperation(op) == AsLegacy(Lowering.ConvertOperation(op))
    decreases op, 2
  {
    match op
    case WaitForMonitor(_) =>
    case CallService(_, _, vs) =>
      ArgsAgree(vs);
    case IfElse(c, bs) =>
      ArgAgrees(c);
      BranchesAgree(bs);
    case Generic(_, fs) =>
      ArgsAgree(fs);
  }

  lemma {:induction false} ArgAgrees(a: Arg)
    requires ArgNoFork(a)
    ensures ConvertArgument(a) == AsLegacy(Lowering.ConvertArgument(a))
    decreases a, 2
  {
    if a.Nested? {
      OperationAgrees(a.op);
    }
  }

  lemma {:induction false} ArgsAgree(xs: seq<Arg>)
    requires forall i :: 0 <= i < |xs| ==> ArgNoFork(xs[i])
    ensures ConvertArgs(xs) == AsLegacy(Lowering.ConvertArgs(xs))
    decreases xs, 2
  {
    if xs != [] {
      ArgAgrees(xs[0]);
      ArgsAgree(xs[1..]);
    }
  }

  lemma {:induction false} EntryAgrees(e: Entry)
    requires EntryNoFork(e)
    ensures ConvertContentSingle(e) == AsLegacy(Lowering.ConvertEntry(e))
    decreases e, 2
  {
    if e.Operation? {
      OperationAgrees(e.op);
    }
  }

  /** `gen_compiled` of both generations, before the newer one links the result. */
  lemma {:induction false} EntriesAgree(es: seq<Entry>)
    requires forall i :: 0 <= i < |es| ==> EntryNoFork(es[i])
    ensures ConvertEntries(es) == AsLegacy(Lowering.LowerAll(es))
    decreases es, 2
  {
    if es != [] {
      EntryAgrees(es[0]);
      EntriesAgree(es[1..]);
    }
  }

  lemma {:induction false} BranchesAgree(bs: seq<Branch>)
    requires forall i :: 0 <= i < |bs| ==> BranchNoFork(bs[i])
    ensures ConvertBranches(bs) == AsLegacy(Lowering.ConvertBranches(bs))
    decreases bs, 2
  {
    if bs != [] {
      EntriesAgree(bs[0].entries);
      BranchesAgree(bs[1..]);
    }
  }

  /**
   * Older `gen_compiled` fails exactly when some operation list holds a bare
   * string, and otherwise yields one well-formed, unlinked block per
   * operation.
   */
  lemma GenCompiledShape(ast: seq<Entry>)
    requires forall i :: 0 <= i < |ast| ==> EntryNoFork(ast[i])
    ensures GenCompiled(ast).Err? <==> exists i :: 0 <= i < |ast| && Lowering.EntryHasStray(ast[i])
    ensures GenCompiled(ast).Err? ==> GenCompiled(ast).error == ArgsMapFails
    ensures GenCompiled(ast).Ok? ==>
      |GenCompiled(ast).value| == |ast| && forall i :: 0 <= i < |ast| ==> Lowering.LoweredBlock(GenCompiled(ast).value[i])
  {
    EntriesAgree(ast);
    Lowering.EntriesFailIffStray(ast);
    Lowering.LoweredEntriesShape(ast);
    Lowering.LowerAllMaps(ast);
  }

  // ------------------------------------------------------------ lists and shapes

  /** `values.map(convert_argument)`: one result per value, in order, failing where one does. */
  lemma {:induction false} ArgsMap(xs: seq<Arg>)
    requires forall i :: 0 <= i < |xs| ==> ArgNoFork(xs[i])
    ensures ConvertArgs(xs).Ok? <==> forall i :: 0 <= i < |xs| ==> ConvertArgument(xs[i]).Ok?
    ensures ConvertArgs(xs).Ok? ==>
      |ConvertArgs(xs).value| == |xs| && forall i :: 0 <= i < |xs| ==> Ok(ConvertArgs(xs).value[i]) == ConvertArgument(xs[i])
  {
    if xs != [] {
      ArgsMap(xs[1..]);
      assert forall i :: 1 <= i < |xs| ==> xs[i] == xs[1..][i - 1];
    }
  }

  /** `contents.map(convert_content_single)`: one block per entry, in order, failing where one does. */
  lemma {:induction false} EntriesMap(es: seq<Entry>)
    requires forall i :: 0 <= i < |es| ==> EntryNoFork(es[i])
    ensures ConvertEntries(es).Ok? <==> forall i :: 0 <= i < |es| ==> ConvertContentSingle(es[i]).Ok?
    ensures ConvertEntries(es).Ok? ==>
      |ConvertEntries(es).value| == |es|
      && forall i :: 0 <= i < |es| ==> Ok(ConvertEntries(es).value[i]) == ConvertContentSingle(es[i])
  {
    if es != [] {
      EntriesMap(es[1..]);
      assert forall i :: 1 <= i < |es| ==> es[i] == es[1..][i - 1];
    }
  }

  /** `lists.map(convert_contents)`: one `ContentBlock` per list, in order. */
  lemma {:induction false} BranchesMap(bs: seq<Branch>)
    requires forall i :: 0 <= i < |bs| ==> BranchNoFork(bs[i])
    ensures ConvertBranches(bs).Ok? <==> forall i :: 0 <= i < |bs| ==> ConvertContents(bs[i].entries).Ok?
    ensures ConvertBranches(bs).Ok? ==>
      |ConvertBranches(bs).value| == |bs|
      && forall i :: 0 <= i < |bs| ==> Ok(ConvertBranches(bs).value[i]) == ConvertContents(bs[i].entries)
  {
    if bs != [] {
      BranchesMap(bs[1..]);
      assert forall i :: 1 <= i < |bs| ==> bs[i] == bs[1..][i - 1];
    }
  }

  /**
   * Older `gen_compiled` is `convert_operation` mapped over the list: as
   * many blocks as operations, block i lowered from operation i, and no
   * block given an id.
   */
  lemma GenCompiledMaps(ast: seq<Entry>)
    requires forall i :: 0 <= i < |ast| ==> EntryNoFork(ast[i])
    ensures GenCompiled(ast).Ok? <==> forall i :: 0 <= i < |ast| ==> ConvertContentSingle(ast[i]).Ok?
    ensures GenCompiled(ast).Ok? ==>
      |GenCompiled(ast).value| == |ast|
      && forall i :: 0 <= i < |ast| ==>
           Ok(GenCompiled(ast).value[i]) == ConvertContentSingle(ast[i]) && GenCompiled(ast).value[i].id == None
  {
    EntriesMap(ast);
    if GenCompiled(ast).Ok? {
      forall i | 0 <= i < |ast|
        ensures GenCompiled(ast).value[i].id == None
      {
        assert ast[i].Operation?;
      }
    }
  }

  /** Older `convert_contents` keeps length and order of the list it wraps. */
  lemma ContentsKeepOrder(es: seq<Entry>)
    requires forall i :: 0 <= i < |es| ==> EntryNoFork(es[i])
    ensures ConvertContents(es).Ok? <==> forall i :: 0 <= i < |es| ==> ConvertContentSingle(es[i]).Ok?
    ensures ConvertContents(es).Ok? ==>
      var c := ConvertContents(es).value;
      c.CB? && |c.contents| == |es|
      && forall i :: 0 <= i < |es| ==> c.contents[i].B? && Ok(c.contents[i].block) == ConvertContentSingle(es[i])
  {
    EntriesMap(es);
  }

  /**
   * Older `control_if_else`: the condition is the only argument, each branch
   * list one `ContentBlock` in order, and one empty `ContentBlock` is
   * appended when there are fewer than two.
   */
  lemma IfElsePadded(cond: Arg, branches: seq<Branch>)
    requires ArgNoFork(cond) && forall i :: 0 <= i < |branches| ==> BranchNoFork(branches[i])
    ensures var r := ConvertOperation(IfElse(cond, branches));
      && (r.Ok? <==>
            ConvertArgument(cond).Ok? && forall i :: 0 <= i < |branches| ==> ConvertContents(branches[i].entries).Ok?)
      && (r.Ok? ==>
            && r.value.args == ArgList([ConvertArgument(cond).value])
            && |r.value.contents| == (if |branches| < 2 then |branches| + 1 else |branches|)
            && (forall i :: 0 <= i < |branches| ==> Ok(r.value.contents[i]) == ConvertContents(branches[i].entries))
            && (|branches| < 2 ==> r.value.contents[|branches|] == CB([])))
  {
    BranchesMap(branches);
  }

  /** Older default case: the fields after the tag, lowered in order, no contents, no check of the tag. */
  lemma DefaultLowering(tag: FreeTag, fields: seq<Arg>)
    requires OpNoFork(Generic(tag, fields))
    ensures var r := ConvertOperation(Generic(tag, fields));
      && (r.Ok? <==> forall i :: 0 <= i < |fields| ==> ConvertArgument(fields[i]).Ok?)
      && (r.Ok? ==>
            && r.value.kind == tag && r.value.contents == []
            && r.value.args.ArgList? && |r.value.args.list| == |fields|
            && (forall i :: 0 <= i < |fields| ==> Ok(r.value.args.list[i]) == ConvertArgument(fields[i])))
  {
    ArgsMap(fields);
  }
}
