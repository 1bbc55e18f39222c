/**
 * Canonical form of compiled trees as computed by the older test helpers:
 * ids are kept, only seven kinds are known, and any other kind makes
 * canonicalization throw.
 */
module LegacyCanonical {
  import opened Results
  import opened FlowGraph
  import opened StableJson
  import opened Sorting
  import Canonical

  type CanonError = Canonical.CanonError

  /** The kinds the older `canonicalize_op` has a case for. */
  predicate KnownKind(kind: string)
  {
    kind in {"wait_for_monitor", "flow_last_value", "control_if_else", "flow_set_value",
             "command_call_service", "operator_and", "operator_equals"}
  }

  /** `canonicalize_arg` */
  function CanonArg(a: CArg): (r: Result<CArg, CanonError>)
    ensures r.Ok? ==> r.value.Constant? == a.Constant?
    decreases a, 2
  {
    match a
    case Constant(_) => Ok(a)
    case BlockArg(bs) =>
      match CanonOps(bs)
      case Err(e) => Err(e)
      case Ok(cs) => Ok(BlockArg(cs))
  }

  function CanonArgs(xs: seq<CArg>): Result<seq<CArg>, CanonError>
    decreases xs, 1
  {
    if xs == [] then Ok([])
    else
      match CanonArg(xs[0])
      case Err(e) => Err(e)
      case Ok(a) =>
        match CanonArgs(xs[1..])
        case Err(e) => Err(e)
        case Ok(rest) => Ok([a] + rest)
  }

  function CanonArgList(a: Args): (r: Result<seq<CArg>, CanonError>)
    ensures !a.ArgList? ==> r == Err(Canonical.ArgsMapFails)
    decreases a, 1
  {
    if a.ArgList? then CanonArgs(a.list) else Err(Canonical.ArgsMapFails)
  }

  function CanonOps(bs: seq<Block>): Result<seq<Block>, CanonError>
    decreases bs, 1
  {
    if bs == [] then Ok([])
    else
      match CanonOp(bs[0])
      case Err(e) => Err(e)
      case Ok(b) =>
        match CanonOps(bs[1..])
        case Err(e) => Err(e)
        case Ok(rest) => Ok([b] + rest)
  }

  /** `canonicalize_content`: an untyped block is rebuilt as an anonymous `ContentBlock`. */
  function CanonContent(c: Content): Result<Content, CanonError>
    decreases c, 2
  {
    match c
    case B(b) =>
      if b.kind != "" then
        (match CanonOp(b)
         case Err(e) => Err(e)
         case Ok(b') => Ok(B(b')))
      else
        (match CanonContents(b.contents)
         case Err(e) => Err(e)
         case Ok(cs) => Ok(CB(cs)))
    case CB(cs) =>
      match CanonContents(cs)
      case Err(e) => Err(e)
      case Ok(cs') => Ok(CB(cs'))
  }

  function CanonContents(cs: seq<Content>): Result<seq<Content>, CanonError>
    decreases cs, 1
  {
    if cs == [] then Ok([])
    else
      match CanonContent(cs[0])
      case Err(e) => Err(e)
      case Ok(c) =>
        match CanonContents(cs[1..])
        case Err(e) => Err(e)
        case Ok(rest) => Ok([c] + rest)
  }

  /**
   * `canonicalize_op`: the id and the kind are kept; a kind outside the
   * seven known ones throws `Unknown operation`.
   */
  function CanonOp(op: Block): (r: Result<Block, CanonError>)
    ensures r.Ok? ==> r.value.id == op.id && r.value.kind == op.kind && KnownKind(op.kind)
    ensures !KnownKind(op.kind) ==> r == Err(Canonical.UnknownOperation(op.kind))
    decreases op, 2
  {
    if op.kind == "wait_for_monitor" || op.kind == "flow_last_value" then Ok(op)
    else if op.kind == "control_if_else" then
      (match CanonArgList(op.args)
       case Err(e) => Err(e)
       case Ok(xs) =>
         match CanonContents(op.contents)
         case Err(e) => Err(e)
         case Ok(cs) => Ok(op.(args := ArgList(xs), contents := cs)))
    else if op.kind == "flow_set_value" then
      (match CanonArgList(op.args)
       case Err(e) => Err(e)
       case Ok(xs) => Ok(op.(args := ArgList(xs))))
    else if op.kind == "command_call_service" then
      if op.args.CallDict? then
        (match CanonArgs(op.args.values)
         case Err(e) => Err(e)
         case Ok(vs) => Ok(op.(args := op.args.(values := vs))))
      else Ok(op)
    else if op.kind == "operator_and" || op.kind == "operator_equals" then
      (match CanonArgList(op.args)
       case Err(e) => Err(e)
       case Ok(xs) => Ok(op.(args := ArgList(SortBy(xs, SerArg)))))
    else Err(Canonical.UnknownOperation(op.kind))
  }

  /** `canonicalize_ast` */
  function CanonAst(g: Graph): Result<Graph, CanonError>
  {
    CanonOps(g)
  }

  /** `canonicalize_ast_list` */
  function CanonAstList(gs: seq<Graph>): Result<seq<Graph>, CanonError>
  {
    match MapAll(gs, CanonAst)
    case Err(e) => Err(e)
    case Ok(cs) => Ok(SortBy(cs, SerGraph))
  }

  // ------------------------------------------------------------------ lists

  lemma {:induction false} CanonArgsMaps(xs: seq<CArg>)
    ensures MapsTo(xs, CanonArg, CanonArgs(xs))
  {
    if xs != [] {
      CanonArgsMaps(xs[1..]);
    }
  }

  lemma {:induction false} CanonContentsMaps(cs: seq<Content>)
    ensures MapsTo(cs, CanonContent, CanonContents(cs))
  {
    if cs != [] {
      CanonContentsMaps(cs[1..]);
    }
  }

  /**
   * An unknown kind anywhere canonicalization reaches makes the whole
   * graph fail: here, the first operation of a graph.
   */
  lemma UnknownKindFails(g: Graph)
    requires g != [] && !KnownKind(g[0].kind)
    ensures CanonAst(g) == Err(Canonical.UnknownOperation(g[0].kind))
  {
  }

  /**
   * `operator_and` and `operator_equals`: the operands are canonicalized and
   * sorted by their stable JSON text, so their order makes no difference.
   */
  lemma OperandOrderIrrelevant(kind: string, id: Option<string>, xs: seq<CArg>, ys: seq<CArg>, cs: seq<Content>)
    requires kind == "operator_and" || kind == "operator_equals"
    requires multiset(xs) == multiset(ys)
    ensures CanonOp(Block(id, kind, ArgList(xs), cs)).Ok? <==> CanonOp(Block(id, kind, ArgList(ys), cs)).Ok?
    ensures CanonOp(Block(id, kind, ArgList(xs), cs)).Ok? ==>
      && CanonOp(Block(id, kind, ArgList(xs), cs)) == CanonOp(Block(id, kind, ArgList(ys), cs))
      && SortedBy(CanonOp(Block(id, kind, ArgList(xs), cs)).value.args.list, SerArg)
  {
    CanonArgsMaps(xs);
    CanonArgsMaps(ys);
    Canonical.MapsToPermutes(CanonArg, xs, ys, CanonArgs(xs), CanonArgs(ys));
    SerArgInjective();
    if CanonArgs(xs).Ok? {
      SortForgetsOrder(CanonArgs(xs).value, CanonArgs(ys).value, SerArg);
      SortSorts(CanonArgs(xs).value, SerArg);
    }
  }

  /**
   * `canonicalize_ast_list` succeeds on a list exactly when it succeeds on
   * any reordering of it, and then gives the same sorted list. Which
   * exception is raised may depend on the order.
   */
  lemma AstListOrderIrrelevant(gs: seq<Graph>, hs: seq<Graph>)
    requires multiset(gs) == multiset(hs)
    ensures CanonAstList(gs).Ok? <==> CanonAstList(hs).Ok?
    ensures CanonAstList(gs).Ok? ==>
      && CanonAstList(gs) == CanonAstList(hs)
      && SortedBy(CanonAstList(gs).value, SerGraph)
      && multiset(CanonAstList(gs).value) == multiset(MapAll(gs, CanonAst).value)
  {
    MapAllMaps(gs, CanonAst);
    MapAllMaps(hs, CanonAst);
    Canonical.MapsToPermutes(CanonAst, gs, hs, MapAll(gs, CanonAst), MapAll(hs, CanonAst));
    SerGraphInjective();
    var r := MapAll(gs, CanonAst);
    if r.Ok? {
      SortForgetsOrder(r.value, MapAll(hs, CanonAst).value, SerGraph);
      SortSorts(r.value, SerGraph);
      SortPermutes(r.value, SerGraph);
    }
  }

  // --------------------------------------------------------------- per kind

  /**
   * `control_if_else`: arguments and contents are canonicalized element by
   * element, in place and without reordering; the id is kept.
   */
  lemma IfElseKeepsOrder(b: Block)
    requires b.kind == "control_if_else"
    ensures CanonOp(b).Ok? <==>
      b.args.ArgList? && CanonArgs(b.args.list).Ok? && CanonContents(b.contents).Ok?
    ensures CanonOp(b).Ok? ==>
      && CanonOp(b).value.id == b.id
      && |CanonOp(b).value.args.list| == |b.args.list|
      && (forall i :: 0 <= i < |b.args.list| ==> CanonArg(b.args.list[i]) == Ok(CanonOp(b).value.args.list[i]))
      && |CanonOp(b).value.contents| == |b.contents|
      && (forall i :: 0 <= i < |b.contents| ==> CanonContent(b.contents[i]) == Ok(CanonOp(b).value.contents[i]))
  {
    if b.args.ArgList? {
      CanonArgsMaps(b.args.list);
    }
    CanonContentsMaps(b.contents);
  }

  /** `flow_set_value`: the arguments are canonicalized in order and the contents are left untouched. */
  lemma SetValueKeepsContents(b: Block)
    requires b.kind == "flow_set_value"
    ensures CanonOp(b).Ok? <==> b.args.ArgList? && CanonArgs(b.args.list).Ok?
    ensures CanonOp(b).Ok? ==>
      && CanonOp(b).value.contents == b.contents
      && |CanonOp(b).value.args.list| == |b.args.list|
      && (forall i :: 0 <= i < |b.args.list| ==> CanonArg(b.args.list[i]) == Ok(CanonOp(b).value.args.list[i]))
  {
    if b.args.ArgList? {
      CanonArgsMaps(b.args.list);
    }
  }

  /**
   * `command_call_service`: only `service_call_values` is rewritten, element
   * by element; `service_id` and `service_action` stay, and arguments that
   * are not a dictionary are left as they are.
   */
  lemma CallServiceValues(b: Block)
    requires b.kind == "command_call_service"
    ensures !b.args.CallDict? ==> CanonOp(b) == Ok(b)
    ensures b.args.CallDict? ==>
      && (CanonOp(b).Ok? <==> forall i :: 0 <= i < |b.args.values| ==> CanonArg(b.args.values[i]).Ok?)
      && (CanonOp(b).Ok? ==>
            && CanonOp(b).value.args.CallDict?
            && CanonOp(b).value.args.serviceId == b.args.serviceId
            && CanonOp(b).value.args.serviceAction == b.args.serviceAction
            && |CanonOp(b).value.args.values| == |b.args.values|
            && (forall i :: 0 <= i < |b.args.values| ==> CanonArg(b.args.values[i]) == Ok(CanonOp(b).value.args.values[i]))
            && CanonOp(b).value.contents == b.contents)
  {
    if b.args.CallDict? {
      CanonArgsMaps(b.args.values);
      MapsToOk(b.args.values, CanonArg, CanonArgs(b.args.values));
    }
  }

  /**
   * `operator_and` and `operator_equals`: the new arguments are the
   * canonicalized operands, reordered so that their stable JSON texts are
   * ascending.
   */
  lemma OperatorArgsSorted(b: Block)
    requires b.kind == "operator_and" || b.kind == "operator_equals"
    ensures CanonOp(b).Ok? <==> b.args.ArgList? && CanonArgs(b.args.list).Ok?
    ensures CanonOp(b).Ok? ==>
      && SortedBy(CanonOp(b).value.args.list, SerArg)
      && multiset(CanonOp(b).value.args.list) == multiset(CanonArgs(b.args.list).value)
      && CanonOp(b).value.contents == b.contents
  {
    if b.args.ArgList? && CanonArgs(b.args.list).Ok? {
      SortSorts(CanonArgs(b.args.list).value, SerArg);
      SortPermutes(CanonArgs(b.args.list).value, SerArg);
    }
  }

  // ------------------------------------------------------------ idempotence

  lemma SortedArgsStayCanonical(xs: seq<CArg>)
    requires CanonArgs(xs) == Ok(xs)
    ensures CanonArgs(SortBy(xs, SerArg)) == Ok(SortBy(xs, SerArg))
    ensures SortBy(SortBy(xs, SerArg), SerArg) == SortBy(xs, SerArg)
  {
    var sorted := SortBy(xs, SerArg);
    CanonArgsMaps(xs);
    CanonArgsMaps(sorted);
    SortPermutes(xs, SerArg);
    forall j | 0 <= j < |sorted|
      ensures CanonArg(sorted[j]) == Ok(sorted[j])
    {
      assert sorted[j] in multiset(xs);
    }
    FixedPointsMap(sorted, CanonArg, CanonArgs(sorted));
    SerArgInjective();
    SortSorts(xs, SerArg);
    SortKeepsSorted(sorted, SerArg);
  }

  /** Canonicalizing a canonical operation gives it back unchanged. */
  lemma {:induction false} OpIdempotent(b: Block)
    requires CanonOp(b).Ok?
    ensures CanonOp(CanonOp(b).value) == CanonOp(b)
    decreases b, 3
  {
    var kind := b.kind;
    if kind == "control_if_else" {
      ArgsIdempotent(b.args.list);
      ContentsIdempotent(b.contents);
    } else if kind == "flow_set_value" {
      ArgsIdempotent(b.args.list);
    } else if kind == "command_call_service" {
      if b.args.CallDict? {
        ArgsIdempotent(b.args.values);
      }
    } else if kind == "operator_and" || kind == "operator_equals" {
      ArgsIdempotent(b.args.list);
      SortedArgsStayCanonical(CanonArgs(b.args.list).value);
    }
  }

  lemma {:induction false} ArgIdempotent(a: CArg)
    requires CanonArg(a).Ok?
    ensures CanonArg(CanonArg(a).value) == CanonArg(a)
    decreases a, 3
  {
    if a.BlockArg? {
      OpsIdempotent(a.blocks);
    }
  }

  lemma {:induction false} ArgsIdempotent(xs: seq<CArg>)
    requires CanonArgs(xs).Ok?
    ensures CanonArgs(CanonArgs(xs).value) == CanonArgs(xs)
    decreases xs, 2
  {
    if xs != [] {
      ArgIdempotent(xs[0]);
      ArgsIdempotent(xs[1..]);
      var r := CanonArgs(xs).value;
      assert r[0] == CanonArg(xs[0]).value && r[1..] == CanonArgs(xs[1..]).value;
    }
  }

  lemma {:induction false} OpsIdempotent(bs: seq<Block>)
    requires CanonOps(bs).Ok?
    ensures CanonOps(CanonOps(bs).value) == CanonOps(bs)
    decreases bs, 2
  {
    if bs != [] {
      OpIdempotent(bs[0]);
      OpsIdempotent(bs[1..]);
      var r := CanonOps(bs).value;
      assert r[0] == CanonOp(bs[0]).value && r[1..] == CanonOps(bs[1..]).value;
    }
  }

  lemma {:induction false} ContentIdempotent(c: Content)
    requires CanonContent(c).Ok?
    ensures CanonContent(CanonContent(c).value) == CanonContent(c)
    decreases c, 3
  {
    match c
    case B(b) =>
      if b.kind != "" {
        OpIdempotent(b);
      } else {
        ContentsIdempotent(b.contents);
      }
    case CB(cs) =>
      ContentsIdempotent(cs);
  }

  lemma {:induction false} ContentsIdempotent(cs: seq<Content>)
    requires CanonContents(cs).Ok?
    ensures CanonContents(CanonContents(cs).value) == CanonContents(cs)
    decreases cs, 2
  {
    if cs != [] {
      ContentIdempotent(cs[0]);
      ContentsIdempotent(cs[1..]);
      var r := CanonContents(cs).value;
      assert r[0] == CanonContent(cs[0]).value && r[1..] == CanonContents(cs[1..]).value;
    }
  }
}
