/**
 * Lowering of the array-encoded AST into compiled blocks, as done by the
 * newer test scaffolding (`convert_argument`, `convert_operation`,
 * `convert_ast`, `convert_contents`, `gen_compiled`).
 */
module Lowering {
  import opened Results
  import opened Text
  import opened FlowGraph

  /** The one exception lowering raises; it carries the value it found instead of an argument array. */
  datatype CompileError = ASTCompilationError(found: string)

  /** `s.slice(1)`: what the default branch sees as the "arguments" of a bare string. */
  function SliceFrom1(s: string): string
  {
    if |s| == 0 then [] else s[1..]
  }

  /** `convert_argument` */
  function ConvertArgument(a: Arg): (r: Result<CArg, CompileError>)
    ensures !a.Nested? ==> r.Ok? && r.value.Constant?
    ensures a.Str? ==> r.value.value == a.s
    ensures a.Num? ==> r.value.value == IntToString(a.n)
    ensures a.Nested? && r.Ok? ==> r.value.BlockArg? && |r.value.blocks| == 1 && r.value.blocks[0].kind == Tag(a.op)
    ensures a.Nested? ==> r.Ok? == ConvertOperation(a.op).Ok?
  {
    match a
    case Str(s) => Ok(Constant(s))
    case Num(n) => Ok(Constant(IntToString(n)))
    case Nested(op) =>
      match ConvertOperation(op)
      case Err(e) => Err(e)
      case Ok(b) => Ok(BlockArg([b]))
  }

  /** `args.map(v => convert_argument(v))`: the first exception wins. */
  function ConvertArgs(xs: seq<Arg>): Result<seq<CArg>, CompileError>
  {
    if xs == [] then Ok([])
    else
      match ConvertArgument(xs[0])
      case Err(e) => Err(e)
      case Ok(a) =>
        match ConvertArgs(xs[1..])
        case Err(e) => Err(e)
        case Ok(rest) => Ok([a] + rest)
  }

  /** `convert_operation` applied to an element of an operation list. */
  function ConvertEntry(e: Entry): (r: Result<Block, CompileError>)
  {
    match e
    case Stray(s) => Err(ASTCompilationError(SliceFrom1(s)))
    case Operation(op) => ConvertOperation(op)
  }

  /** `convert_ast`, as a function: the loop in `ConvertAst` computes it. */
  function LowerAll(es: seq<Entry>): Result<Graph, CompileError>
    decreases es, 0
  {
    if es == [] then Ok([])
    else
      match ConvertEntry(es[0])
      case Err(e) => Err(e)
      case Ok(b) =>
        match LowerAll(es[1..])
        case Err(e) => Err(e)
        case Ok(rest) => Ok([b] + rest)
  }

  /** Wraps each block of a list as an element of `contents`. */
  function AsContents(bs: seq<Block>): (r: seq<Content>)
    ensures |r| == |bs| && forall i :: 0 <= i < |bs| ==> r[i] == B(bs[i])
  {
    if bs == [] then [] else [B(bs[0])] + AsContents(bs[1..])
  }

  /** `convert_contents`: one branch or path becomes one `ContentBlock`. */
  function ConvertContents(es: seq<Entry>): Result<Content, CompileError>
    decreases es, 1
  {
    match LowerAll(es)
    case Err(e) => Err(e)
    case Ok(bs) => Ok(CB(AsContents(bs)))
  }

  /** `lists.map(v => convert_contents(v))` */
  function ConvertBranches(bss: seq<Branch>): Result<seq<Content>, CompileError>
  {
    if bss == [] then Ok([])
    else
      match ConvertContents(bss[0].entries)
      case Err(e) => Err(e)
      case Ok(c) =>
        match ConvertBranches(bss[1..])
        case Err(e) => Err(e)
        case Ok(rest) => Ok([c] + rest)
  }

  /** The `contents.push({contents: []})` of an if/else: one empty section when there are fewer than two. */
  function PadOnce(cs: seq<Content>): seq<Content>
  {
    if |cs| < 2 then cs + [CB([])] else cs
  }

  /**
   * `convert_operation` on an operation. Branch and path lists are lowered
   * before the condition and the fork arguments, as the source evaluates them.
   */
  function ConvertOperation(op: Op): (r: Result<Block, CompileError>)
    ensures r.Ok? ==> r.value.kind == Tag(op) && r.value.id == None
  {
    match op
    case WaitForMonitor(m) => Ok(Block(None, "wait_for_monitor", Raw(m), []))
    case CallService(sid, action, values) =>
      (match ConvertArgs(values)
       case Err(e) => Err(e)
       case Ok(vs) => Ok(Block(None, "command_call_service", CallDict(sid, action, vs), [])))
    case IfElse(cond, branches) =>
      (match ConvertBranches(branches)
       case Err(e) => Err(e)
       case Ok(cs) =>
         match ConvertArgument(cond)
         case Err(e) => Err(e)
         case Ok(c) => Ok(Block(None, "control_if_else", ArgList([c]), PadOnce(cs))))
    case Fork(args, paths) =>
      (match ConvertBranches(paths)
       case Err(e) => Err(e)
       case Ok(cs) =>
         match ConvertArgs(args)
         case Err(e) => Err(e)
         case Ok(xs) => Ok(Block(None, "op_fork_execution", ArgList(xs), cs)))
    case Generic(tag, fields) =>
      match ConvertArgs(fields)
      case Err(e) => Err(e)
      case Ok(xs) => Ok(Block(None, tag, ArgList(xs), []))
  }

  // ------------------------------------------------------------------ lists

  lemma {:induction false} ConvertArgsMaps(xs: seq<Arg>)
    ensures MapsTo(xs, ConvertArgument, ConvertArgs(xs))
  {
    if xs != [] {
      ConvertArgsMaps(xs[1..]);
    }
  }

  /** `convert_ast` keeps length and order: output i is `convert_operation` of input i. */
  lemma {:induction false} LowerAllMaps(es: seq<Entry>)
    ensures MapsTo(es, ConvertEntry, LowerAll(es))
  {
    if es != [] {
      LowerAllMaps(es[1..]);
    }
  }

  lemma {:induction false} ConvertBranchesMaps(bss: seq<Branch>)
    ensures MapsTo(bss, (b: Branch) => ConvertContents(b.entries), ConvertBranches(bss))
  {
    if bss != [] {
      ConvertBranchesMaps(bss[1..]);
    }
  }

  /** `convert_contents` keeps length and order of the operation list it wraps. */
  lemma ConvertContentsKeepsOrder(es: seq<Entry>)
    ensures ConvertContents(es).Ok? <==> forall i :: 0 <= i < |es| ==> ConvertEntry(es[i]).Ok?
    ensures ConvertContents(es).Ok? ==>
      var c := ConvertContents(es).value;
      c.CB? && |c.contents| == |es| && forall i :: 0 <= i < |es| ==> Ok(c.contents[i].block) == ConvertEntry(es[i]) && c.contents[i].B?
  {
    LowerAllMaps(es);
    MapsToOk(es, ConvertEntry, LowerAll(es));
  }

  // ------------------------------------------------------------- operations

  /**
   * `command_call_service` keeps `service_id` and `service_action` and
   * lowers `service_call_values` element by element; `wait_for_monitor`
   * keeps its descriptor as it is. Neither has contents.
   */
  lemma CallServiceLowering(sid: string, action: string, values: seq<Arg>, m: Monitor)
    ensures ConvertOperation(WaitForMonitor(m)) == Ok(Block(None, "wait_for_monitor", Raw(m), []))
    ensures var r := ConvertOperation(CallService(sid, action, values));
      && (r.Ok? <==> forall i :: 0 <= i < |values| ==> ConvertArgument(values[i]).Ok?)
      && (r.Ok? ==>
            && r.value.args.CallDict?
            && r.value.args.serviceId == sid && r.value.args.serviceAction == action
            && |r.value.args.values| == |values|
            && (forall i :: 0 <= i < |values| ==> Ok(r.value.args.values[i]) == ConvertArgument(values[i]))
            && r.value.contents == [])
  {
    ConvertArgsMaps(values);
    MapsToOk(values, ConvertArgument, ConvertArgs(values));
  }

  /**
   * `control_if_else`: the condition becomes the only argument, each branch
   * list one `ContentBlock` in order, and with fewer than two branch lists
   * one empty `ContentBlock` is appended. A failing branch is reported
   * before a failing condition.
   */
  lemma IfElseLowering(cond: Arg, branches: seq<Branch>)
    ensures var r := ConvertOperation(IfElse(cond, branches));
      && (r.Ok? <==>
            ConvertArgument(cond).Ok? && forall i :: 0 <= i < |branches| ==> ConvertContents(branches[i].entries).Ok?)
      && (r.Ok? ==>
            && r.value.args == ArgList([ConvertArgument(cond).value])
            && |r.value.contents| == (if |branches| < 2 then |branches| + 1 else |branches|)
            && (forall i :: 0 <= i < |branches| ==> Ok(r.value.contents[i]) == ConvertContents(branches[i].entries))
            && (|branches| < 2 ==> r.value.contents[|branches|] == CB([])))
      && (ConvertBranches(branches).Err? ==> r == Err(ConvertBranches(branches).error))
  {
    var f := (b: Branch) => ConvertContents(b.entries);
    ConvertBranchesMaps(branches);
    MapsToOk(branches, f, ConvertBranches(branches));
  }

  /** An if/else with only a "then" list lowers to two contents, the second empty. */
  lemma SingleBranchIsPadded(cond: Arg, then_: Branch)
    requires ConvertOperation(IfElse(cond, [then_])).Ok?
    ensures var b := ConvertOperation(IfElse(cond, [then_])).value;
      |b.contents| == 2 && Ok(b.contents[0]) == ConvertContents(then_.entries) && b.contents[1] == CB([])
  {
    IfElseLowering(cond, [then_]);
  }

  /**
   * `op_fork_execution`: one `ContentBlock` per path, in order, and the fork
   * arguments lowered element by element. How many paths there are has no
   * bearing on success: fewer than two only draws a warning.
   */
  lemma ForkLowering(args: seq<Arg>, paths: seq<Branch>)
    ensures var r := ConvertOperation(Fork(args, paths));
      && (r.Ok? <==>
            && (forall i :: 0 <= i < |paths| ==> ConvertContents(paths[i].entries).Ok?)
            && (forall i :: 0 <= i < |args| ==> ConvertArgument(args[i]).Ok?))
      && (r.Ok? ==>
            && |r.value.contents| == |paths|
            && (forall i :: 0 <= i < |paths| ==> Ok(r.value.contents[i]) == ConvertContents(paths[i].entries))
            && r.value.args.ArgList? && |r.value.args.list| == |args|
            && (forall i :: 0 <= i < |args| ==> Ok(r.value.args.list[i]) == ConvertArgument(args[i])))
      && (ConvertBranches(paths).Err? ==> r == Err(ConvertBranches(paths).error))
  {
    var f := (b: Branch) => ConvertContents(b.entries);
    ConvertBranchesMaps(paths);
    MapsToOk(paths, f, ConvertBranches(paths));
    ConvertArgsMaps(args);
    MapsToOk(args, ConvertArgument, ConvertArgs(args));
  }

  /** Any other tag: the positional fields after the tag, lowered in order, and no contents. */
  lemma DefaultLowering(tag: FreeTag, fields: seq<Arg>)
    ensures var r := ConvertOperation(Generic(tag, fields));
      && (r.Ok? <==> forall i :: 0 <= i < |fields| ==> ConvertArgument(fields[i]).Ok?)
      && (r.Ok? ==>
            && r.value.kind == tag && r.value.contents == []
            && r.value.args.ArgList? && |r.value.args.list| == |fields|
            && (forall i :: 0 <= i < |fields| ==> Ok(r.value.args.list[i]) == ConvertArgument(fields[i])))
  {
    ConvertArgsMaps(fields);
    MapsToOk(fields, ConvertArgument, ConvertArgs(fields));
  }

  // ------------------------------------------------------------ error path

  /** A bare string sits somewhere an operation is expected. */
  predicate EntryHasStray(e: Entry)
  {
    match e
    case Stray(_) => true
    case Operation(op) => OpHasStray(op)
  }

  predicate ArgHasStray(a: Arg)
  {
    a.Nested? && OpHasStray(a.op)
  }

  predicate BranchHasStray(b: Branch)
  {
    exists j :: 0 <= j < |b.entries| && EntryHasStray(b.entries[j])
  }

  predicate OpHasStray(op: Op)
  {
    match op
    case WaitForMonitor(_) => false
    case CallService(_, _, vs) => exists i :: 0 <= i < |vs| && ArgHasStray(vs[i])
    case IfElse(c, bs) => ArgHasStray(c) || exists i :: 0 <= i < |bs| && BranchHasStray(bs[i])
    case Fork(xs, ps) => (exists i :: 0 <= i < |xs| && ArgHasStray(xs[i])) || exists i :: 0 <= i < |ps| && BranchHasStray(ps[i])
    case Generic(_, fs) => exists i :: 0 <= i < |fs| && ArgHasStray(fs[i])
  }

  /**
   * The only way lowering fails: some operation list holds a bare string,
   * whose `slice(1)` is not an array. An AST whose every element is a real
   * operation always lowers.
   */
  lemma {:induction false} LoweringFailsIffStray(op: Op)
    ensures ConvertOperation(op).Err? <==> OpHasStray(op)
    decreases op, 2
  {
    match op
    case WaitForMonitor(_) =>
    case CallService(_, _, vs) =>
      ArgsFailIffStray(vs);
    case IfElse(c, bs) =>
      ArgFailsIffStray(c);
      BranchesFailIffStray(bs);
    case Fork(xs, ps) =>
      ArgsFailIffStray(xs);
      BranchesFailIffStray(ps);
    case Generic(_, fs) =>
      ArgsFailIffStray(fs);
  }

  lemma {:induction false} ArgFailsIffStray(a: Arg)
    ensures ConvertArgument(a).Err? <==> ArgHasStray(a)
    decreases a, 2
  {
    if a.Nested? {
      LoweringFailsIffStray(a.op);
    }
  }

  lemma {:induction false} ArgsFailIffStray(xs: seq<Arg>)
    ensures ConvertArgs(xs).Err? <==> exists i :: 0 <= i < |xs| && ArgHasStray(xs[i])
    decreases xs, 2
  {
    if xs != [] {
      ArgFailIffStrayAt(xs);
    }
  }

  lemma {:induction false} ArgFailIffStrayAt(xs: seq<Arg>)
    requires xs != []
    ensures ConvertArgs(xs).Err? <==> exists i :: 0 <= i < |xs| && ArgHasStray(xs[i])
    decreases xs, 1
  {
    ArgFailsIffStray(xs[0]);
    ArgsFailIffStray(xs[1..]);
    if exists i :: 0 <= i < |xs| && ArgHasStray(xs[i]) {
      var i :| 0 <= i < |xs| && ArgHasStray(xs[i]);
      if i > 0 {
        assert ArgHasStray(xs[1..][i - 1]);
      }
    }
    if exists i :: 0 <= i < |xs[1..]| && ArgHasStray(xs[1..][i]) {
      var i :| 0 <= i < |xs[1..]| && ArgHasStray(xs[1..][i]);
      assert ArgHasStray(xs[i + 1]);
    }
  }

  lemma {:induction false} EntryFailsIffStray(e: Entry)
    ensures ConvertEntry(e).Err? <==> EntryHasStray(e)
    decreases e, 2
  {
    if e.Operation? {
      LoweringFailsIffStray(e.op);
    }
  }

  lemma {:induction false} EntriesFailIffStray(es: seq<Entry>)
    ensures LowerAll(es).Err? <==> exists i :: 0 <= i < |es| && EntryHasStray(es[i])
    decreases es, 2
  {
    if es != [] {
      EntriesFailIffStrayAt(es);
    }
  }

  lemma {:induction false} EntriesFailIffStrayAt(es: seq<Entry>)
    requires es != []
    ensures LowerAll(es).Err? <==> exists i :: 0 <= i < |es| && EntryHasStray(es[i])
    decreases es, 1
  {
    EntryFailsIffStray(es[0]);
    EntriesFailIffStray(es[1..]);
    if exists i :: 0 <= i < |es| && EntryHasStray(es[i]) {
      var i :| 0 <= i < |es| && EntryHasStray(es[i]);
      if i > 0 {
        assert EntryHasStray(es[1..][i - 1]);
      }
    }
    if exists i :: 0 <= i < |es[1..]| && EntryHasStray(es[1..][i]) {
      var i :| 0 <= i < |es[1..]| && EntryHasStray(es[1..][i]);
      assert EntryHasStray(es[i + 1]);
    }
  }

  lemma {:induction false} BranchesFailIffStray(bs: seq<Branch>)
    ensures ConvertBranches(bs).Err? <==> exists i :: 0 <= i < |bs| && BranchHasStray(bs[i])
    decreases bs, 2
  {
    if bs != [] {
      BranchesFailIffStrayAt(bs);
    }
  }

  lemma {:induction false} BranchesFailIffStrayAt(bs: seq<Branch>)
    requires bs != []
    ensures ConvertBranches(bs).Err? <==> exists i :: 0 <= i < |bs| && BranchHasStray(bs[i])
    decreases bs, 1
  {
    EntriesFailIffStray(bs[0].entries);
    BranchesFailIffStray(bs[1..]);
    if exists i :: 0 <= i < |bs| && BranchHasStray(bs[i]) {
      var i :| 0 <= i < |bs| && BranchHasStray(bs[i]);
      if i > 0 {
        assert BranchHasStray(bs[1..][i - 1]);
      }
    }
    if exists i :: 0 <= i < |bs[1..]| && BranchHasStray(bs[1..][i]) {
      var i :| 0 <= i < |bs[1..]| && BranchHasStray(bs[1..][i]);
      assert BranchHasStray(bs[i + 1]);
    }
  }

  /** A bare string in operation position raises `ASTCompilationError` carrying its `slice(1)`. */
  lemma StrayRaises(s: string)
    ensures ConvertEntry(Stray(s)) == Err(ASTCompilationError(if |s| == 0 then "" else s[1..]))
    ensures LowerAll([Stray(s)]).Err?
  {
  }

  // ------------------------------------------------------------ tree shape

  /** A block argument made by lowering: a constant, or exactly one well-formed block. */
  predicate LoweredArg(a: CArg)
  {
    match a
    case Constant(_) => true
    case BlockArg(bs) => |bs| == 1 && LoweredBlock(bs[0])
  }

  /** A branch or path made by lowering: a `ContentBlock` of well-formed blocks. */
  predicate LoweredSection(c: Content)
  {
    c.CB? && forall i :: 0 <= i < |c.contents| ==> c.contents[i].B? && LoweredBlock(c.contents[i].block)
  }

  /**
   * What `convert_operation` produces, before linking: no ids; a monitor
   * descriptor exactly on `wait_for_monitor`; a call-service dictionary exactly
   * on `command_call_service`; an argument list everywhere else; contents only
   * on if/else (never empty, thanks to the padding) and on forks.
   */
  predicate LoweredBlock(b: Block)
  {
    && b.id == None
    && (b.args.Raw? <==> b.kind == "wait_for_monitor")
    && (b.args.CallDict? <==> b.kind == "command_call_service")
    && (b.kind == "control_if_else" ==> |b.args.list| == 1 && |b.contents| >= 1)
    && (b.kind != "control_if_else" && b.kind != "op_fork_execution" ==> b.contents == [])
    && (b.args.ArgList? ==> forall i :: 0 <= i < |b.args.list| ==> LoweredArg(b.args.list[i]))
    && (b.args.CallDict? ==> forall i :: 0 <= i < |b.args.values| ==> LoweredArg(b.args.values[i]))
    && forall i :: 0 <= i < |b.contents| ==> LoweredSection(b.contents[i])
  }

  lemma {:induction false} LoweredOpShape(op: Op)
    ensures ConvertOperation(op).Ok? ==> LoweredBlock(ConvertOperation(op).value)
    decreases op, 2
  {
    match op
    case WaitForMonitor(_) =>
    case CallService(_, _, vs) =>
      LoweredArgsShape(vs);
    case IfElse(c, bs) =>
      LoweredArgShape(c);
      LoweredBranchesShape(bs);
    case Fork(xs, ps) =>
      LoweredArgsShape(xs);
      LoweredBranchesShape(ps);
    case Generic(_, fs) =>
      LoweredArgsShape(fs);
  }

  lemma {:induction false} LoweredArgShape(a: Arg)
    ensures ConvertArgument(a).Ok? ==> LoweredArg(ConvertArgument(a).value)
    decreases a, 2
  {
    if a.Nested? {
      LoweredOpShape(a.op);
    }
  }

  lemma {:induction false} LoweredArgsShape(xs: seq<Arg>)
    ensures ConvertArgs(xs).Ok? ==> forall i :: 0 <= i < |ConvertArgs(xs).value| ==> LoweredArg(ConvertArgs(xs).value[i])
    decreases xs, 2
  {
    if xs != [] {
      LoweredArgShape(xs[0]);
      LoweredArgsShape(xs[1..]);
    }
  }

  lemma {:induction false} LoweredEntryShape(e: Entry)
    ensures ConvertEntry(e).Ok? ==> LoweredBlock(ConvertEntry(e).value)
    decreases e, 2
  {
    if e.Operation? {
      LoweredOpShape(e.op);
    }
  }

  lemma {:induction false} LoweredEntriesShape(es: seq<Entry>)
    ensures LowerAll(es).Ok? ==> forall i :: 0 <= i < |LowerAll(es).value| ==> LoweredBlock(LowerAll(es).value[i])
    decreases es, 2
  {
    if es != [] {
      LoweredEntryShape(es[0]);
      LoweredEntriesShape(es[1..]);
    }
  }

  lemma {:induction false} LoweredBranchesShape(bs: seq<Branch>)
    ensures ConvertBranches(bs).Ok? ==> forall i :: 0 <= i < |ConvertBranches(bs).value| ==> LoweredSection(ConvertBranches(bs).value[i])
    decreases bs, 2
  {
    if bs != [] {
      LoweredEntriesShape(bs[0].entries);
      LoweredBranchesShape(bs[1..]);
      var c := ConvertContents(bs[0].entries);
      if c.Ok? {
        assert LoweredSection(c.value);
      }
    }
  }

  // ------------------------------------------------------------ entry points

  /** Prefixes the blocks already lowered to the outcome of lowering the rest. */
  function Prepend(done: Graph, rest: Result<Graph, CompileError>): Result<Graph, CompileError>
  {
    match rest
    case Err(e) => Err(e)
    case Ok(bs) => Ok(done + bs)
  }

  /**
   * `convert_ast`: lowers the operations one after the other, pushing each
   * block; the first exception aborts the whole list.
   */
  method ConvertAst(ast: seq<Entry>) returns (r: Result<Graph, CompileError>)
    ensures r == LowerAll(ast)
    ensures r.Ok? ==> |r.value| == |ast| && forall i :: 0 <= i < |ast| ==> LoweredBlock(r.value[i])
  {
    var result: Graph := [];
    var idx := 0;
    assert ast[0..] == ast;
    assert Prepend([], LowerAll(ast)) == LowerAll(ast) by {
      if LowerAll(ast).Ok? {
        assert [] + LowerAll(ast).value == LowerAll(ast).value;
      }
    }
    while idx < |ast|
      invariant 0 <= idx <= |ast|
      invariant LowerAll(ast) == Prepend(result, LowerAll(ast[idx..]))
    {
      assert ast[idx..][0] == ast[idx] && ast[idx..][1..] == ast[idx + 1..];
      var op := ConvertEntry(ast[idx]);
      if op.Err? {
        return Err(op.error);
      }
      ghost var rest := LowerAll(ast[idx + 1..]);
      if rest.Ok? {
        assert result + ([op.value] + rest.value) == (result + [op.value]) + rest.value;
      }
      result := result + [op.value];
      idx := idx + 1;
    }
    assert ast[idx..] == [] && result + [] == result;
    r := Ok(result);
    LowerAllMaps(ast);
    LoweredEntriesShape(ast);
  }

  /**
   * `gen_compiled`: lowers the AST, then hands the block list to the graph
   * linker, which is outside this model and so arrives as a parameter.
   */
  method GenCompiled(ast: seq<Entry>, link: Graph -> Graph) returns (r: Result<Graph, CompileError>)
    ensures r.Err? <==> exists i :: 0 <= i < |ast| && EntryHasStray(ast[i])
    ensures r.Err? ==> r == LowerAll(ast)
    ensures r.Ok? ==> LowerAll(ast).Ok? && r.value == link(LowerAll(ast).value)
  {
    var lowered := ConvertAst(ast);
    EntriesFailIffStray(ast);
    if lowered.Err? {
      return lowered;
    }
    r := Ok(link(lowered.value));
  }
}
