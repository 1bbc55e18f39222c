/**
 * Canonical form of compiled trees, as computed by the newer test
 * scaffolding (`canonicalize_arg`, `canonicalize_content`,
 * `canonicalize_op`, `canonicalize_ast`, `canonicalize_ast_list`): ids are
 * dropped, commutative operands and fork paths are sorted by their stable
 * JSON text, so that two graphs that differ only in those respects compare
 * equal.
 */
module Canonical {
  import opened Results
  import opened FlowGraph
  import opened StableJson
  import opened Sorting
  import Lowering

  /** What canonicalization can throw. */
  datatype CanonError = NotAFunction(expression: string) | UnknownOperation(kind: string)

  /** `op.args.map` on arguments that are not a list. */
  const ArgsMapFails := NotAFunction("op.args.map")

  /** The constant fork argument the canonical form leaves out. */
  const ExitFlag := Constant("exit-when-all-completed")

  // ---------------------------------------------------------------- kinds

  /** Kinds whose arguments and contents are left as they are. */
  predicate KeptKind(kind: string)
  {
    kind in {"wait_for_monitor", "flow_last_value", "jump_to_position", "jump_to_block", "trigger_when_first_completed"}
  }

  /** Kinds whose arguments and contents are canonicalized in place, in order. */
  predicate WalkedKind(kind: string)
  {
    kind in {"control_wait", "control_if_else", "trigger_when_all_completed", "flow_modulo", "operator_add",
             "op_log_value", "operator_lt", "operator_gt", "data_setvariableto", "data_variable",
             "data_lengthoflist", "flow_get_thread_id", "data_deleteoflist", "data_addtolist", "op_preload_getter"}
  }

  /** Commutative operators, whose operands are sorted. */
  predicate CommutativeKind(kind: string)
  {
    kind == "operator_and" || kind == "operator_equals"
  }

  /** `kind.startsWith('services.')` */
  predicate ServiceKind(kind: string)
  {
    |kind| >= 9 && kind[..9] == "services."
  }

  /** `args.filter(a => !(a.type === 'constant' && a.value === 'exit-when-all-completed'))` */
  function DropExitFlag(xs: seq<CArg>): (r: seq<CArg>)
    ensures multiset(r) == multiset(xs)[ExitFlag := 0]
  {
    if xs == [] then []
    else
      assert xs == [xs[0]] + xs[1..];
      if xs[0] == ExitFlag then DropExitFlag(xs[1..]) else [xs[0]] + DropExitFlag(xs[1..])
  }

  // ------------------------------------------------------- canonicalization

  /** `canonicalize_arg` */
  function CanonArg(a: CArg): (r: Result<CArg, CanonError>)
    ensures r.Err? ==> r.error == ArgsMapFails
    ensures r.Ok? ==> r.value.Constant? == a.Constant?
    decreases a, 2
  {
    match a
    case Constant(_) => Ok(a)
    case BlockArg(bs) =>
      match CanonOps(bs)
      case Err(e) => Err(e)
      case Ok(cs) => Ok(BlockArg(cs))
  }

  function CanonArgs(xs: seq<CArg>): (r: Result<seq<CArg>, CanonError>)
    ensures r.Err? ==> r.error == ArgsMapFails
    decreases xs, 1
  {
    if xs == [] then Ok([])
    else
      match CanonArg(xs[0])
      case Err(e) => Err(e)
      case Ok(a) =>
        match CanonArgs(xs[1..])
        case Err(e) => Err(e)
        case Ok(rest) => Ok([a] + rest)
  }

  /** `(op.args as CompiledBlockArgList).map(canonicalize_arg)`: only a list has `map`. */
  function CanonArgList(a: Args): (r: Result<seq<CArg>, CanonError>)
    ensures r.Err? ==> r.error == ArgsMapFails
    ensures !a.ArgList? ==> r.Err?
    decreases a, 1
  {
    if a.ArgList? then CanonArgs(a.list) else Err(ArgsMapFails)
  }

  function CanonOps(bs: seq<Block>): (r: Result<seq<Block>, CanonError>)
    ensures r.Err? ==> r.error == ArgsMapFails
    decreases bs, 1
  {
    if bs == [] then Ok([])
    else
      match CanonOp(bs[0])
      case Err(e) => Err(e)
      case Ok(b) =>
        match CanonOps(bs[1..])
        case Err(e) => Err(e)
        case Ok(rest) => Ok([b] + rest)
  }

  /**
   * `canonicalize_content`: a block with a (non-empty) type is an operation;
   * anything else is read as a `ContentBlock` and rebuilt from its contents
   * alone.
   */
  function CanonContent(c: Content): (r: Result<Content, CanonError>)
    ensures r.Err? ==> r.error == ArgsMapFails
    decreases c, 2
  {
    match c
    case B(b) =>
      if b.kind != "" then
        (match CanonOp(b)
         case Err(e) => Err(e)
         case Ok(b') => Ok(B(b')))
      else
        (match CanonContents(b.contents)
         case Err(e) => Err(e)
         case Ok(cs) => Ok(CB(cs)))
    case CB(cs) =>
      match CanonContents(cs)
      case Err(e) => Err(e)
      case Ok(cs') => Ok(CB(cs'))
  }

  function CanonContents(cs: seq<Content>): (r: Result<seq<Content>, CanonError>)
    ensures r.Err? ==> r.error == ArgsMapFails
    decreases cs, 1
  {
    if cs == [] then Ok([])
    else
      match CanonContent(cs[0])
      case Err(e) => Err(e)
      case Ok(c) =>
        match CanonContents(cs[1..])
        case Err(e) => Err(e)
        case Ok(rest) => Ok([c] + rest)
  }

  /**
   * `canonicalize_op`: the id is deleted first; the kind then decides what
   * else is rewritten. The only exception is `map` on arguments that are
   * not a list; an unknown kind is kept as it is.
   */
  function CanonOp(b: Block): (r: Result<Block, CanonError>)
    ensures r.Err? ==> r.error == ArgsMapFails
    ensures r.Ok? ==> r.value.id == None && r.value.kind == b.kind
    decreases b, 2
  {
    var op := b.(id := None);
    if KeptKind(op.kind) then Ok(op)
    else if WalkedKind(op.kind) then
      (match CanonArgList(op.args)
       case Err(e) => Err(e)
       case Ok(xs) =>
         match CanonContents(op.contents)
         case Err(e) => Err(e)
         case Ok(cs) => Ok(op.(args := ArgList(xs), contents := cs)))
    else if op.kind == "command_call_service" then
      if op.args.CallDict? then
        (match CanonArgs(op.args.values)
         case Err(e) => Err(e)
         case Ok(vs) => Ok(op.(args := op.args.(values := vs))))
      else Ok(op)
    else if CommutativeKind(op.kind) then
      (match CanonArgList(op.args)
       case Err(e) => Err(e)
       case Ok(xs) => Ok(op.(args := ArgList(SortBy(xs, SerArg)))))
    else if op.kind == "op_fork_execution" then
      (match CanonContents(op.contents)
       case Err(e) => Err(e)
       case Ok(cs) =>
         Ok(op.(contents := SortBy(cs, SerContent),
                args := if op.args.ArgList? then ArgList(DropExitFlag(op.args.list)) else op.args)))
    else if ServiceKind(op.kind) then
      (match CanonArgList(op.args)
       case Err(e) => Err(e)
       case Ok(xs) =>
         match CanonContents(op.contents)
         case Err(e) => Err(e)
         case Ok(cs) => Ok(op.(args := ArgList(xs), contents := cs)))
    else Ok(op)
  }

  /** `canonicalize_ast` */
  function CanonAst(g: Graph): Result<Graph, CanonError>
  {
    CanonOps(g)
  }

  /** `canonicalize_ast_list`: every graph canonicalized, then the list sorted by stable JSON text. */
  function CanonAstList(gs: seq<Graph>): Result<seq<Graph>, CanonError>
  {
    match MapAll(gs, CanonAst)
    case Err(e) => Err(e)
    case Ok(cs) => Ok(SortBy(cs, SerGraph))
  }

  // ------------------------------------------------------------------ lists

  lemma {:induction false} CanonArgsMaps(xs: seq<CArg>)
    ensures MapsTo(xs, CanonArg, CanonArgs(xs))
  {
    if xs != [] {
      CanonArgsMaps(xs[1..]);
    }
  }

  lemma {:induction false} CanonOpsMaps(bs: seq<Block>)
    ensures MapsTo(bs, CanonOp, CanonOps(bs))
  {
    if bs != [] {
      CanonOpsMaps(bs[1..]);
    }
  }

  lemma {:induction false} CanonContentsMaps(cs: seq<Content>)
    ensures MapsTo(cs, CanonContent, CanonContents(cs))
  {
    if cs != [] {
      CanonContentsMaps(cs[1..]);
    }
  }

  /** Mapping two permutations of each other fails on both or on neither, and otherwise gives two permutations. */
  lemma MapsToPermutes<T, U, E>(f: T -> Result<U, E>, xs: seq<T>, ys: seq<T>, rx: Result<seq<U>, E>, ry: Result<seq<U>, E>)
    requires MapsTo(xs, f, rx) && MapsTo(ys, f, ry)
    requires multiset(xs) == multiset(ys)
    ensures rx.Ok? <==> ry.Ok?
    ensures rx.Ok? ==> multiset(rx.value) == multiset(ry.value)
  {
    MapsToOk(xs, f, rx);
    MapsToOk(ys, f, ry);
    forall j | 0 <= j < |ys|
      ensures ys[j] in xs
    {
      assert ys[j] in multiset(ys);
    }
    forall i | 0 <= i < |xs|
      ensures xs[i] in ys
    {
      assert xs[i] in multiset(xs);
    }
    if rx.Ok? && ry.Ok? && xs != [] {
      var d := rx.value[0];
      var g := (a: T) => if f(a).Ok? then f(a).value else d;
      assert rx.value == MapSeq(g, xs);
      assert ry.value == MapSeq(g, ys);
      MapPermutes(g, xs, ys);
    }
    if xs == [] {
      assert |ys| == |multiset(ys)| == 0;
    }
  }

  // --------------------------------------------------------- sorting kinds

  lemma DropExitFlagSpec(xs: seq<CArg>)
    ensures ExitFlag !in DropExitFlag(xs)
    ensures forall a :: a in DropExitFlag(xs) <==> a in xs && a != ExitFlag
    ensures ExitFlag !in xs ==> DropExitFlag(xs) == xs
  {
    var r := DropExitFlag(xs);
    forall a
      ensures a in r <==> a in xs && a != ExitFlag
    {
      assert a in r <==> a in multiset(r);
      assert a in xs <==> a in multiset(xs);
    }
    if ExitFlag !in xs {
      KeepsAllOtherArgs(xs);
    }
  }

  lemma {:induction false} KeepsAllOtherArgs(xs: seq<CArg>)
    requires ExitFlag !in xs
    ensures DropExitFlag(xs) == xs
  {
    if xs != [] {
      KeepsAllOtherArgs(xs[1..]);
    }
  }

  /** A commutative operator is canonicalized by sorting its canonicalized operands. */
  lemma CommutativeDispatch(b: Block)
    requires CommutativeKind(b.kind)
    ensures CanonArgList(b.args).Err? ==> CanonOp(b) == Err(CanonArgList(b.args).error)
    ensures CanonArgList(b.args).Ok? ==>
      CanonOp(b) == Ok(b.(id := None, args := ArgList(SortBy(CanonArgList(b.args).value, SerArg))))
  {
    assert !KeptKind(b.kind) && !WalkedKind(b.kind) && b.kind != "command_call_service";
  }

  /** Kinds that are walked have their arguments, then their contents, canonicalized in order. */
  lemma WalkedDispatch(b: Block)
    requires WalkedKind(b.kind) || ServiceKind(b.kind)
    ensures CanonOp(b) ==
      if !b.args.ArgList? || CanonArgs(b.args.list).Err? || CanonContents(b.contents).Err? then Err(ArgsMapFails)
      else Ok(Block(None, b.kind, ArgList(CanonArgs(b.args.list).value), CanonContents(b.contents).value))
  {
    if WalkedKind(b.kind) {
      WalkedIsNoOtherKind(b.kind);
    } else {
      ServiceIsNoOtherKind(b.kind);
    }
  }

  lemma WalkedIsNoOtherKind(kind: string)
    requires WalkedKind(kind)
    ensures !KeptKind(kind) && !CommutativeKind(kind) && kind != "command_call_service" && kind != "op_fork_execution"
  {
    WalkedIsNotKept(kind);
    WalkedIsNotCommutative(kind);
  }

  lemma WalkedIsNotCommutative(kind: string)
    requires WalkedKind(kind)
    ensures !CommutativeKind(kind)
  {
  }

  lemma WalkedIsNotKept(kind: string)
    requires WalkedKind(kind)
    ensures !KeptKind(kind)
  {
  }

  lemma ServiceIsNoOtherKind(kind: string)
    requires ServiceKind(kind)
    ensures !KeptKind(kind) && !WalkedKind(kind) && !CommutativeKind(kind)
    ensures kind != "command_call_service" && kind != "op_fork_execution"
  {
    assert kind[0] == "services."[0];
  }

  /** A fork has its paths canonicalized and sorted, and its exit flag dropped. */
  lemma ForkDispatch(b: Block)
    requires b.kind == "op_fork_execution"
    ensures CanonOp(b) ==
      if CanonContents(b.contents).Err? then Err(ArgsMapFails)
      else Ok(Block(None, b.kind, if b.args.ArgList? then ArgList(DropExitFlag(b.args.list)) else b.args,
                    SortBy(CanonContents(b.contents).value, SerContent)))
  {
    assert !KeptKind(b.kind) && !WalkedKind(b.kind) && !CommutativeKind(b.kind);
  }

  /**
   * `operator_and` and `operator_equals`: the canonical operands are the
   * canonicalized operands, sorted by their stable JSON text; so the order
   * of the operands, and the id, make no difference.
   */
  lemma OperandOrderIrrelevant(kind: string, id1: Option<string>, id2: Option<string>, xs: seq<CArg>, ys: seq<CArg>, cs: seq<Content>)
    requires CommutativeKind(kind)
    requires multiset(xs) == multiset(ys)
    ensures CanonOp(Block(id1, kind, ArgList(xs), cs)) == CanonOp(Block(id2, kind, ArgList(ys), cs))
    ensures var r := CanonOp(Block(id1, kind, ArgList(xs), cs));
      r.Ok? ==>
        && r.value.args.ArgList?
        && SortedBy(r.value.args.list, SerArg)
        && CanonArgs(xs).Ok?
        && multiset(r.value.args.list) == multiset(CanonArgs(xs).value)
        && r.value.contents == cs
  {
    CommutativeDispatch(Block(id1, kind, ArgList(xs), cs));
    CommutativeDispatch(Block(id2, kind, ArgList(ys), cs));
    CanonArgsMaps(xs);
    CanonArgsMaps(ys);
    MapsToPermutes(CanonArg, xs, ys, CanonArgs(xs), CanonArgs(ys));
    SerArgInjective();
    if CanonArgs(xs).Ok? {
      SortForgetsOrder(CanonArgs(xs).value, CanonArgs(ys).value, SerArg);
      SortSorts(CanonArgs(xs).value, SerArg);
      SortPermutes(CanonArgs(xs).value, SerArg);
    }
  }

  /**
   * `op_fork_execution`: the canonical paths are the canonicalized paths,
   * sorted by their stable JSON text, so the order of the paths makes no
   * difference; the `exit-when-all-completed` flag is dropped from the
   * arguments and nothing else is.
   */
  lemma ForkPathOrderIrrelevant(id1: Option<string>, id2: Option<string>, args: Args, cs: seq<Content>, ds: seq<Content>)
    requires multiset(cs) == multiset(ds)
    ensures CanonOp(Block(id1, "op_fork_execution", args, cs)) == CanonOp(Block(id2, "op_fork_execution", args, ds))
    ensures var r := CanonOp(Block(id1, "op_fork_execution", args, cs));
      && (r.Ok? <==> CanonContents(cs).Ok?)
      && (r.Ok? ==>
            && SortedBy(r.value.contents, SerContent)
            && multiset(r.value.contents) == multiset(CanonContents(cs).value)
            && r.value.args.ArgList? == args.ArgList?
            && (args.ArgList? ==>
                  && ExitFlag !in r.value.args.list
                  && multiset(r.value.args.list) == multiset(args.list)[ExitFlag := 0])
            && (!args.ArgList? ==> r.value.args == args))
  {
    ForkDispatch(Block(id1, "op_fork_execution", args, cs));
    ForkDispatch(Block(id2, "op_fork_execution", args, ds));
    CanonContentsMaps(cs);
    CanonContentsMaps(ds);
    MapsToPermutes(CanonContent, cs, ds, CanonContents(cs), CanonContents(ds));
    SerContentInjective();
    if CanonContents(cs).Ok? {
      SortForgetsOrder(CanonContents(cs).value, CanonContents(ds).value, SerContent);
      SortSorts(CanonContents(cs).value, SerContent);
      SortPermutes(CanonContents(cs).value, SerContent);
    }
    if args.ArgList? {
      DropExitFlagSpec(args.list);
    }
  }

  /**
   * The id is deleted from every operation canonicalized, whatever its
   * kind; a kind the canonicalizer does not know is otherwise left as it
   * is, and so is every kind listed as having nothing to canonicalize.
   */
  lemma KeptKindsUnchanged(b: Block)
    requires KeptKind(b.kind) || !(WalkedKind(b.kind) || CommutativeKind(b.kind) || ServiceKind(b.kind)
                                     || b.kind == "command_call_service" || b.kind == "op_fork_execution")
    ensures CanonOp(b) == Ok(b.(id := None))
  {
  }

  /**
   * Kinds walked in order (control flow, arithmetic, variables, `services.*`):
   * arguments and contents are canonicalized element by element, without
   * reordering; arguments that are not a list make `map` throw.
   */
  lemma WalkedKindsKeepOrder(b: Block)
    requires WalkedKind(b.kind) || ServiceKind(b.kind)
    ensures CanonOp(b).Ok? <==>
      b.args.ArgList? && CanonArgs(b.args.list).Ok? && CanonContents(b.contents).Ok?
    ensures CanonOp(b).Ok? ==>
      && |CanonOp(b).value.args.list| == |b.args.list|
      && (forall i :: 0 <= i < |b.args.list| ==> CanonArg(b.args.list[i]) == Ok(CanonOp(b).value.args.list[i]))
      && |CanonOp(b).value.contents| == |b.contents|
      && (forall i :: 0 <= i < |b.contents| ==> CanonContent(b.contents[i]) == Ok(CanonOp(b).value.contents[i]))
  {
    WalkedDispatch(b);
    if b.args.ArgList? {
      CanonArgsMaps(b.args.list);
    }
    CanonContentsMaps(b.contents);
  }

  /** `command_call_service`: only `service_call_values` is canonicalized, and only when the arguments are a dictionary. */
  lemma CallServiceValues(b: Block)
    requires b.kind == "command_call_service"
    ensures !b.args.CallDict? ==> CanonOp(b) == Ok(b.(id := None))
    ensures b.args.CallDict? ==>
      && (CanonOp(b).Ok? <==> forall i :: 0 <= i < |b.args.values| ==> CanonArg(b.args.values[i]).Ok?)
      && (CanonOp(b).Ok? ==>
            && CanonOp(b).value.args.CallDict?
            && CanonOp(b).value.args.serviceId == b.args.serviceId
            && CanonOp(b).value.args.serviceAction == b.args.serviceAction
            && |CanonOp(b).value.args.values| == |b.args.values|
            && (forall i :: 0 <= i < |b.args.values| ==> CanonArg(b.args.values[i]) == Ok(CanonOp(b).value.args.values[i]))
            && CanonOp(b).value.contents == b.contents)
  {
    assert !KeptKind(b.kind) && !WalkedKind(b.kind);
    if b.args.CallDict? {
      CanonArgsMaps(b.args.values);
      MapsToOk(b.args.values, CanonArg, CanonArgs(b.args.values));
    }
  }

  /** A content block that is not a typed operation is rebuilt as an anonymous `ContentBlock`. */
  lemma UntypedContentFlattened(b: Block)
    requires b.kind == ""
    ensures CanonContent(B(b)).Ok? ==> CanonContent(B(b)).value.CB?
    ensures CanonContent(B(b)) == CanonContent(CB(b.contents))
  {
  }

  // ------------------------------------------------------------ graph lists

  /**
   * `canonicalize_ast_list`: the result is sorted, holds exactly the
   * canonicalized graphs, and does not depend on the order of the input.
   */
  lemma AstListOrderIrrelevant(gs: seq<Graph>, hs: seq<Graph>)
    requires multiset(gs) == multiset(hs)
    ensures CanonAstList(gs) == CanonAstList(hs)
    ensures CanonAstList(gs).Ok? <==> forall i :: 0 <= i < |gs| ==> CanonAst(gs[i]).Ok?
    ensures CanonAstList(gs).Ok? ==>
      && |CanonAstList(gs).value| == |gs|
      && SortedBy(CanonAstList(gs).value, SerGraph)
      && multiset(CanonAstList(gs).value) == multiset(MapAll(gs, CanonAst).value)
  {
    MapAllMaps(gs, CanonAst);
    MapAllMaps(hs, CanonAst);
    MapsToOk(gs, CanonAst, MapAll(gs, CanonAst));
    MapsToPermutes(CanonAst, gs, hs, MapAll(gs, CanonAst), MapAll(hs, CanonAst));
    SerGraphInjective();
    var r := MapAll(gs, CanonAst);
    if r.Ok? {
      SortForgetsOrder(r.value, MapAll(hs, CanonAst).value, SerGraph);
      SortSorts(r.value, SerGraph);
      SortPermutes(r.value, SerGraph);
      assert |SortBy(r.value, SerGraph)| == |multiset(SortBy(r.value, SerGraph))| == |multiset(r.value)| == |r.value|;
    } else {
      assert MapAll(hs, CanonAst).Err?;
      assert r.error == ArgsMapFails && MapAll(hs, CanonAst).error == ArgsMapFails by {
        var i :| 0 <= i < |gs| && CanonAst(gs[i]) == Err(r.error);
        var j :| 0 <= j < |hs| && CanonAst(hs[j]) == Err(MapAll(hs, CanonAst).error);
      }
    }
  }

  // ------------------------------------------------------------ idempotence

  /** Sorting canonical arguments keeps them canonical, and sorting them again changes nothing. */
  lemma SortedArgsStayCanonical(xs: seq<CArg>)
    requires CanonArgs(xs) == Ok(xs)
    ensures CanonArgs(SortBy(xs, SerArg)) == Ok(SortBy(xs, SerArg))
    ensures SortBy(SortBy(xs, SerArg), SerArg) == SortBy(xs, SerArg)
  {
    var sorted := SortBy(xs, SerArg);
    CanonArgsMaps(xs);
    CanonArgsMaps(sorted);
    SortPermutes(xs, SerArg);
    forall j | 0 <= j < |sorted|
      ensures CanonArg(sorted[j]) == Ok(sorted[j])
    {
      assert sorted[j] in multiset(xs);
    }
    FixedPointsMap(sorted, CanonArg, CanonArgs(sorted));
    SerArgInjective();
    SortSorts(xs, SerArg);
    SortKeepsSorted(sorted, SerArg);
  }

  lemma SortedContentsStayCanonical(cs: seq<Content>)
    requires CanonContents(cs) == Ok(cs)
    ensures CanonContents(SortBy(cs, SerContent)) == Ok(SortBy(cs, SerContent))
    ensures SortBy(SortBy(cs, SerContent), SerContent) == SortBy(cs, SerContent)
  {
    var sorted := SortBy(cs, SerContent);
    CanonContentsMaps(cs);
    CanonContentsMaps(sorted);
    SortPermutes(cs, SerContent);
    forall j | 0 <= j < |sorted|
      ensures CanonContent(sorted[j]) == Ok(sorted[j])
    {
      assert sorted[j] in multiset(cs);
    }
    FixedPointsMap(sorted, CanonContent, CanonContents(sorted));
    SerContentInjective();
    SortSorts(cs, SerContent);
    SortKeepsSorted(sorted, SerContent);
  }

  /** Canonicalizing a canonical operation gives it back unchanged. */
  lemma {:induction false} OpIdempotent(b: Block)
    requires CanonOp(b).Ok?
    ensures CanonOp(CanonOp(b).value) == CanonOp(b)
    decreases b, 3
  {
    var r := CanonOp(b).value;
    var kind := b.kind;
    assert ServiceKind(kind) ==> kind[0] == "services."[0];
    if KeptKind(kind) {
    } else if WalkedKind(kind) || (ServiceKind(kind) && !CommutativeKind(kind) && kind != "command_call_service" && kind != "op_fork_execution") {
      ArgsIdempotent(b.args.list);
      ContentsIdempotent(b.contents);
    } else if kind == "command_call_service" {
      if b.args.CallDict? {
        ArgsIdempotent(b.args.values);
      }
    } else if CommutativeKind(kind) {
      var xs := CanonArgs(b.args.list).value;
      ArgsIdempotent(b.args.list);
      SortedArgsStayCanonical(xs);
    } else if kind == "op_fork_execution" {
      var cs := CanonContents(b.contents).value;
      ContentsIdempotent(b.contents);
      SortedContentsStayCanonical(cs);
      if b.args.ArgList? {
        DropExitFlagSpec(b.args.list);
        DropExitFlagSpec(r.args.list);
      }
    }
  }

  lemma {:induction false} ArgIdempotent(a: CArg)
    requires CanonArg(a).Ok?
    ensures CanonArg(CanonArg(a).value) == CanonArg(a)
    decreases a, 3
  {
    if a.BlockArg? {
      OpsIdempotent(a.blocks);
    }
  }

  lemma {:induction false} ArgsIdempotent(xs: seq<CArg>)
    requires CanonArgs(xs).Ok?
    ensures CanonArgs(CanonArgs(xs).value) == CanonArgs(xs)
    decreases xs, 2
  {
    if xs != [] {
      ArgIdempotent(xs[0]);
      ArgsIdempotent(xs[1..]);
      var r := CanonArgs(xs).value;
      assert r[0] == CanonArg(xs[0]).value && r[1..] == CanonArgs(xs[1..]).value;
    }
  }

  lemma {:induction false} OpsIdempotent(bs: seq<Block>)
    requires CanonOps(bs).Ok?
    ensures CanonOps(CanonOps(bs).value) == CanonOps(bs)
    decreases bs, 2
  {
    if bs != [] {
      OpIdempotent(bs[0]);
      OpsIdempotent(bs[1..]);
      var r := CanonOps(bs).value;
      assert r[0] == CanonOp(bs[0]).value && r[1..] == CanonOps(bs[1..]).value;
    }
  }

  lemma {:induction false} ContentIdempotent(c: Content)
    requires CanonContent(c).Ok?
    ensures CanonContent(CanonContent(c).value) == CanonContent(c)
    decreases c, 3
  {
    match c
    case B(b) =>
      if b.kind != "" {
        OpIdempotent(b);
      } else {
        ContentsIdempotent(b.contents);
      }
    case CB(cs) =>
      ContentsIdempotent(cs);
  }

  lemma {:induction false} ContentsIdempotent(cs: seq<Content>)
    requires CanonContents(cs).Ok?
    ensures CanonContents(CanonContents(cs).value) == CanonContents(cs)
    decreases cs, 2
  {
    if cs != [] {
      ContentIdempotent(cs[0]);
      ContentsIdempotent(cs[1..]);
      var r := CanonContents(cs).value;
      assert r[0] == CanonContent(cs[0]).value && r[1..] == CanonContents(cs[1..]).value;
    }
  }

  /** `canonicalize_ast_list` of a canonical list gives it back unchanged. */
  lemma AstListIdempotent(gs: seq<Graph>)
    requires CanonAstList(gs).Ok?
    ensures CanonAstList(CanonAstList(gs).value) == CanonAstList(gs)
  {
    var cs := MapAll(gs, CanonAst).value;
    var r := CanonAstList(gs).value;
    MapAllMaps(gs, CanonAst);
    MapAllMaps(cs, CanonAst);
    MapAllMaps(r, CanonAst);
    forall i | 0 <= i < |cs|
      ensures CanonAst(cs[i]) == Ok(cs[i])
    {
      OpsIdempotent(gs[i]);
    }
    SortPermutes(cs, SerGraph);
    forall j | 0 <= j < |r|
      ensures CanonAst(r[j]) == Ok(r[j])
    {
      assert r[j] in multiset(cs);
    }
    FixedPointsMap(r, CanonAst, MapAll(r, CanonAst));
    SerGraphInjective();
    SortSorts(cs, SerGraph);
    SortKeepsSorted(r, SerGraph);
  }

  // ------------------------------------------------ lowered trees canonicalize

  /** A tree as lowering builds it (before linking) never makes canonicalization throw. */
  lemma {:induction false} LoweredOpCanonicalizes(b: Block)
    requires Lowering.LoweredBlock(b)
    ensures CanonOp(b).Ok?
    decreases b, 3
  {
    assert ServiceKind(b.kind) ==> b.kind[0] == "services."[0];
    if b.args.ArgList? {
      LoweredArgsCanonicalize(b.args.list);
    }
    if b.args.CallDict? {
      LoweredArgsCanonicalize(b.args.values);
    }
    LoweredSectionsCanonicalize(b.contents);
  }

  lemma {:induction false} LoweredArgCanonicalizes(a: CArg)
    requires Lowering.LoweredArg(a)
    ensures CanonArg(a).Ok?
    decreases a, 3
  {
    if a.BlockArg? {
      LoweredOpsCanonicalize(a.blocks);
    }
  }

  lemma {:induction false} LoweredArgsCanonicalize(xs: seq<CArg>)
    requires forall i :: 0 <= i < |xs| ==> Lowering.LoweredArg(xs[i])
    ensures CanonArgs(xs).Ok?
    decreases xs, 2
  {
    if xs != [] {
      LoweredArgCanonicalizes(xs[0]);
      LoweredArgsCanonicalize(xs[1..]);
    }
  }

  lemma {:induction false} LoweredOpsCanonicalize(bs: seq<Block>)
    requires forall i :: 0 <= i < |bs| ==> Lowering.LoweredBlock(bs[i])
    ensures CanonOps(bs).Ok?
    decreases bs, 2
  {
    if bs != [] {
      LoweredOpCanonicalizes(bs[0]);
      LoweredOpsCanonicalize(bs[1..]);
    }
  }

  lemma {:induction false} LoweredBlocksCanonicalize(cs: seq<Content>)
    requires forall i :: 0 <= i < |cs| ==> cs[i].B? && Lowering.LoweredBlock(cs[i].block)
    ensures CanonContents(cs).Ok?
    decreases cs, 2
  {
    if cs != [] {
      LoweredContentCanonicalizes(cs[0]);
      LoweredBlocksCanonicalize(cs[1..]);
    }
  }

  lemma {:induction false} LoweredContentCanonicalizes(c: Content)
    requires c.B? && Lowering.LoweredBlock(c.block)
    ensures CanonContent(c).Ok?
    decreases c, 3
  {
    if c.block.kind != "" {
      LoweredOpCanonicalizes(c.block);
    } else {
      assert c.block.contents == [];
    }
  }

  lemma {:induction false} LoweredSectionsCanonicalize(cs: seq<Content>)
    requires forall i :: 0 <= i < |cs| ==> Lowering.LoweredSection(cs[i])
    ensures CanonContents(cs).Ok?
    decreases cs, 2
  {
    if cs != [] {
      LoweredBlocksCanonicalize(cs[0].contents);
      LoweredSectionsCanonicalize(cs[1..]);
    }
  }
}

