/**
 * Deterministic JSON text of compiled trees, the key the canonicalizer
 * sorts by: object keys in ascending order, no whitespace, an absent `id`
 * left out. Each writer takes the text that follows (`k`), so that "what
 * follows" can be recovered from the output; this is how injectivity is
 * proved.
 */
module StableJson {
  import opened Results
  import opened Text
  import opened FlowGraph
  import Sorting

  // ---------------------------------------------------------------- writers

  predicate Special(c: char)
  {
    c == '"' || c == '\\'
  }

  /** One character of a JSON string body: a quote and a backslash are escaped. */
  function Esc(c: char): string
  {
    if Special(c) then ['\\', c] else [c]
  }

  /** The body of a JSON string and its closing quote, then `k`. */
  function WChars(s: string, k: string): string
  {
    if s == [] then ['"'] + k else Esc(s[0]) + WChars(s[1..], k)
  }

  function WStr(s: string, k: string): string
  {
    ['"'] + WChars(s, k)
  }

  function WLit(l: Literal, k: string): string
  {
    match l
    case LStr(s) => WStr(s, k)
    case LNum(n) => IntToString(n) + k
    case LBool(b) => (if b then "true" else "false") + k
    case LNull => "null" + k
  }

  function WMonitor(m: Monitor, k: string): string
  {
    "{\"expected_value\":" + WLit(m.expected, ",\"monitor_id\":{\"from_service\":" + WStr(m.fromService, "}}" + k))
  }

  function WArg(a: CArg, k: string): string
    decreases a, 2
  {
    match a
    case Constant(v) => "{\"type\":\"constant\",\"value\":" + WStr(v, "}" + k)
    case BlockArg(bs) => "{\"type\":\"block\",\"value\":" + WBlocks(bs, "}" + k)
  }

  /** The elements of an array and the closing bracket, which `k` must start with. */
  function WArgItems(xs: seq<CArg>, k: string): string
    decreases xs, 0
  {
    if xs == [] then k else WArg(xs[0], WArgAfter(xs[1..], k))
  }

  /** What follows an element: the closing bracket, or a comma and the next elements. */
  function WArgAfter(rest: seq<CArg>, k: string): string
    decreases rest, 1
  {
    if rest == [] then k else "," + WArgItems(rest, k)
  }

  function WArgList(xs: seq<CArg>, k: string): string
    decreases xs, 1
  {
    "[" + WArgItems(xs, "]" + k)
  }

  function WArgs(a: Args, k: string): string
    decreases a, 2
  {
    match a
    case ArgList(xs) => WArgList(xs, k)
    case Raw(m) => WMonitor(m, k)
    case CallDict(sid, action, vs) =>
      "{\"service_action\":" + WStr(action, ",\"service_call_values\":" + WArgList(vs, ",\"service_id\":" + WStr(sid, "}" + k)))
  }

  const TypeKey := "\"type\":"

  function WId(id: Option<string>, k: string): string
  {
    match id
    case None => k
    case Some(s) => "\"id\":" + WStr(s, "," + k)
  }

  /** A block as `{"args":…,"contents":…,"id":…,"type":…}`. */
  function WBlock(b: Block, k: string): string
    decreases b, 2
  {
    "{\"args\":" + WArgs(b.args, ",\"contents\":" + WContents(b.contents, "," + WId(b.id, TypeKey + WStr(b.kind, "}" + k))))
  }

  function WBlockItems(bs: seq<Block>, k: string): string
    decreases bs, 0
  {
    if bs == [] then k else WBlock(bs[0], WBlockAfter(bs[1..], k))
  }

  /** What follows an element: the closing bracket, or a comma and the next elements. */
  function WBlockAfter(rest: seq<Block>, k: string): string
    decreases rest, 1
  {
    if rest == [] then k else "," + WBlockItems(rest, k)
  }

  function WBlocks(bs: seq<Block>, k: string): string
    decreases bs, 1
  {
    "[" + WBlockItems(bs, "]" + k)
  }

  /** A block, or an anonymous `{"contents":…}`. */
  function WContent(c: Content, k: string): string
    decreases c, 2
  {
    match c
    case B(b) => WBlock(b, k)
    case CB(cs) => "{\"contents\":" + WContents(cs, "}" + k)
  }

  function WContentItems(cs: seq<Content>, k: string): string
    decreases cs, 0
  {
    if cs == [] then k else WContent(cs[0], WContentAfter(cs[1..], k))
  }

  /** What follows an element: the closing bracket, or a comma and the next elements. */
  function WContentAfter(rest: seq<Content>, k: string): string
    decreases rest, 1
  {
    if rest == [] then k else "," + WContentItems(rest, k)
  }

  function WContents(cs: seq<Content>, k: string): string
    decreases cs, 1
  {
    "[" + WContentItems(cs, "]" + k)
  }

  /** The stable JSON text of a block argument, a content and a whole graph. */
  function SerArg(a: CArg): string
  {
    WArg(a, "")
  }

  function SerContent(c: Content): string
  {
    WContent(c, "")
  }

  function SerGraph(g: Graph): string
  {
    WBlocks(g, "")
  }

  // ------------------------------------------------------- cancellation

  lemma Cancel(p: string, a: string, b: string)
    requires p + a == p + b
    ensures a == b
  {
    assert a == (p + a)[|p|..];
    assert b == (p + b)[|p|..];
  }

  lemma EscCancel(a: char, b: char, r1: string, r2: string)
    requires Esc(a) + r1 == Esc(b) + r2
    ensures a == b && r1 == r2
  {
    assert (Esc(a) + r1)[0] == (Esc(b) + r2)[0];
    if Special(a) {
      assert Special(b);
      assert (Esc(a) + r1)[1] == (Esc(b) + r2)[1];
    } else {
      assert !Special(b);
    }
    Cancel(Esc(a), r1, r2);
  }

  lemma WCharsHead(s: string, k: string)
    ensures WChars(s, k) != [] && (WChars(s, k)[0] == '"' <==> s == [])
  {
  }

  lemma {:induction false} WCharsInjective(s: string, t: string, k: string, m: string)
    requires WChars(s, k) == WChars(t, m)
    ensures s == t && k == m
  {
    WCharsHead(s, k);
    WCharsHead(t, m);
    if s == [] {
      assert t == [];
      Cancel(['"'], k, m);
    } else {
      assert t != [];
      EscCancel(s[0], t[0], WChars(s[1..], k), WChars(t[1..], m));
      WCharsInjective(s[1..], t[1..], k, m);
    }
  }

  lemma WStrInjective(s: string, t: string, k: string, m: string)
    requires WStr(s, k) == WStr(t, m)
    ensures s == t && k == m
  {
    Cancel(['"'], WChars(s, k), WChars(t, m));
    WCharsInjective(s, t, k, m);
  }

  /** A number's digits end where the next delimiter starts. */
  lemma NumberCancel(n: int, m: int, k1: string, k2: string)
    requires IntToString(n) + k1 == IntToString(m) + k2
    requires k1 != [] && !IsDigit(k1[0]) && k1[0] != '-'
    requires k2 != [] && !IsDigit(k2[0]) && k2[0] != '-'
    ensures n == m && k1 == k2
  {
    var a, b := IntToString(n), IntToString(m);
    var j := if |a| <= |b| then |a| else |b|;
    assert (a + k1)[j] == (b + k2)[j];
    assert IsDigit((a + k1)[j]) || (a + k1)[j] == '-' <==> j < |a|;
    assert IsDigit((b + k2)[j]) || (b + k2)[j] == '-' <==> j < |b|;
    assert a == (a + k1)[..|a|] && b == (b + k2)[..|b|];
    IntToStringInjective(n, m);
    Cancel(a, k1, k2);
  }

  function LitKind(l: Literal): nat
  {
    match l
    case LStr(_) => 0
    case LNum(_) => 1
    case LBool(b) => if b then 2 else 3
    case LNull => 4
  }

  function CharKind(c: char): nat
  {
    if c == '"' then 0
    else if c == 't' then 2
    else if c == 'f' then 3
    else if c == 'n' then 4
    else 1
  }

  lemma LitHead(l: Literal, k: string)
    ensures WLit(l, k) != [] && CharKind(WLit(l, k)[0]) == LitKind(l)
  {
    if l.LNum? {
      assert WLit(l, k)[0] == IntToString(l.n)[0];
    }
  }

  lemma WLitInjective(x: Literal, y: Literal, k: string, m: string)
    requires WLit(x, k) == WLit(y, m)
    requires k != [] && !IsDigit(k[0]) && k[0] != '-'
    requires m != [] && !IsDigit(m[0]) && m[0] != '-'
    ensures x == y && k == m
  {
    LitHead(x, k);
    LitHead(y, m);
    match x
    case LStr(s) =>
      WStrInjective(s, y.s, k, m);
    case LNum(n) =>
      NumberCancel(n, y.n, k, m);
    case LBool(b) =>
      Cancel(if b then "true" else "false", k, m);
    case LNull =>
      Cancel("null", k, m);
  }

  lemma WMonitorInjective(x: Monitor, y: Monitor, k: string, m: string)
    requires WMonitor(x, k) == WMonitor(y, m)
    ensures x == y && k == m
  {
    var p := "{\"expected_value\":";
    var q := ",\"monitor_id\":{\"from_service\":";
    Cancel(p, WLit(x.expected, q + WStr(x.fromService, "}}" + k)), WLit(y.expected, q + WStr(y.fromService, "}}" + m)));
    WLitInjective(x.expected, y.expected, q + WStr(x.fromService, "}}" + k), q + WStr(y.fromService, "}}" + m));
    Cancel(q, WStr(x.fromService, "}}" + k), WStr(y.fromService, "}}" + m));
    WStrInjective(x.fromService, y.fromService, "}}" + k, "}}" + m);
    Cancel("}}", k, m);
  }

  // ------------------------------------------------------- trees and lists

  lemma ArgHead(a: CArg, k: string)
    ensures |WArg(a, k)| > 9 && WArg(a, k)[0] == '{' && (WArg(a, k)[9] == 'c' <==> a.Constant?)
  {
  }

  lemma BlockHead(b: Block, k: string)
    ensures |WBlock(b, k)| > 2 && WBlock(b, k)[0] == '{' && WBlock(b, k)[2] == 'a'
  {
  }

  lemma ContentHead(c: Content, k: string)
    ensures |WContent(c, k)| > 2 && WContent(c, k)[0] == '{' && (WContent(c, k)[2] == 'a' <==> c.B?)
  {
    if c.B? {
      BlockHead(c.block, k);
    }
  }

  lemma ArgsHead(a: Args, k: string)
    ensures |WArgs(a, k)| > 0 && (WArgs(a, k)[0] == '[' <==> a.ArgList?)
    ensures !a.ArgList? ==> |WArgs(a, k)| > 2 && (WArgs(a, k)[2] == 'e' <==> a.Raw?)
  {
  }

  lemma {:induction false} WArgInjective(x: CArg, y: CArg, k: string, m: string)
    requires WArg(x, k) == WArg(y, m)
    ensures x == y && k == m
    decreases x, 3
  {
    ArgHead(x, k);
    ArgHead(y, m);
    assert WArg(x, k)[9] == WArg(y, m)[9];
    match x
    case Constant(v) =>
      assert y.Constant?;
      var p := "{\"type\":\"constant\",\"value\":";
      Cancel(p, WStr(v, "}" + k), WStr(y.value, "}" + m));
      WStrInjective(v, y.value, "}" + k, "}" + m);
      Cancel("}", k, m);
    case BlockArg(bs) =>
      assert y.BlockArg?;
      var p := "{\"type\":\"block\",\"value\":";
      Cancel(p, WBlocks(bs, "}" + k), WBlocks(y.blocks, "}" + m));
      WBlocksInjective(bs, y.blocks, "}" + k, "}" + m);
      Cancel("}", k, m);
  }

  lemma ArgItemsHead(xs: seq<CArg>, k: string)
    ensures |WArgItems(xs, "]" + k)| > 0 && (WArgItems(xs, "]" + k)[0] == ']' <==> xs == [])
  {
    if xs != [] {
      ArgHead(xs[0], WArgAfter(xs[1..], "]" + k));
    }
  }

  lemma {:induction false} WArgItemsInjective(xs: seq<CArg>, ys: seq<CArg>, k: string, m: string)
    requires WArgItems(xs, "]" + k) == WArgItems(ys, "]" + m)
    ensures xs == ys && k == m
    decreases xs, 1
  {
    ArgItemsHead(xs, k);
    ArgItemsHead(ys, m);
    if xs == [] {
      assert ys == [];
      Cancel("]", k, m);
    } else {
      assert ys != [];
      WArgInjective(xs[0], ys[0], WArgAfter(xs[1..], "]" + k), WArgAfter(ys[1..], "]" + m));
      WArgAfterInjective(xs[1..], ys[1..], k, m);
      assert xs == [xs[0]] + xs[1..] && ys == [ys[0]] + ys[1..];
    }
  }

  lemma {:induction false} WArgAfterInjective(xs: seq<CArg>, ys: seq<CArg>, k: string, m: string)
    requires WArgAfter(xs, "]" + k) == WArgAfter(ys, "]" + m)
    ensures xs == ys && k == m
    decreases xs, 2
  {
    assert WArgAfter(xs, "]" + k)[0] == WArgAfter(ys, "]" + m)[0];
    if xs == [] {
      assert ys == [];
      Cancel("]", k, m);
    } else {
      assert ys != [];
      Cancel(",", WArgItems(xs, "]" + k), WArgItems(ys, "]" + m));
      WArgItemsInjective(xs, ys, k, m);
    }
  }

  lemma {:induction false} WArgListInjective(xs: seq<CArg>, ys: seq<CArg>, k: string, m: string)
    requires WArgList(xs, k) == WArgList(ys, m)
    ensures xs == ys && k == m
    decreases xs, 2
  {
    Cancel("[", WArgItems(xs, "]" + k), WArgItems(ys, "]" + m));
    WArgItemsInjective(xs, ys, k, m);
  }

  lemma {:induction false} WArgsInjective(x: Args, y: Args, k: string, m: string)
    requires WArgs(x, k) == WArgs(y, m)
    ensures x == y && k == m
    decreases x, 3
  {
    ArgsHead(x, k);
    ArgsHead(y, m);
    assert WArgs(x, k)[0] == WArgs(y, m)[0];
    if !x.ArgList? {
      assert WArgs(x, k)[2] == WArgs(y, m)[2];
    }
    match x
    case ArgList(xs) =>
      assert y.ArgList?;
      WArgListInjective(xs, y.list, k, m);
    case Raw(mon) =>
      assert y.Raw?;
      WMonitorInjective(mon, y.monitor, k, m);
    case CallDict(sid, action, vs) =>
      assert y.CallDict?;
      var p := "{\"service_action\":";
      var q := ",\"service_call_values\":";
      var r := ",\"service_id\":";
      Cancel(p, WStr(action, q + WArgList(vs, r + WStr(sid, "}" + k))),
                WStr(y.serviceAction, q + WArgList(y.values, r + WStr(y.serviceId, "}" + m))));
      WStrInjective(action, y.serviceAction, q + WArgList(vs, r + WStr(sid, "}" + k)),
                    q + WArgList(y.values, r + WStr(y.serviceId, "}" + m)));
      Cancel(q, WArgList(vs, r + WStr(sid, "}" + k)), WArgList(y.values, r + WStr(y.serviceId, "}" + m)));
      WArgListInjective(vs, y.values, r + WStr(sid, "}" + k), r + WStr(y.serviceId, "}" + m));
      Cancel(r, WStr(sid, "}" + k), WStr(y.serviceId, "}" + m));
      WStrInjective(sid, y.serviceId, "}" + k, "}" + m);
      Cancel("}", k, m);
  }

  lemma WIdInjective(a: Option<string>, b: Option<string>, k: string, m: string)
    requires WId(a, TypeKey + k) == WId(b, TypeKey + m)
    ensures a == b && k == m
  {
    assert WId(a, TypeKey + k)[1] == WId(b, TypeKey + m)[1];
    match a
    case None =>
      assert b.None?;
      Cancel(TypeKey, k, m);
    case Some(s) =>
      assert b.Some?;
      Cancel("\"id\":", WStr(s, "," + (TypeKey + k)), WStr(b.value, "," + (TypeKey + m)));
      WStrInjective(s, b.value, "," + (TypeKey + k), "," + (TypeKey + m));
      Cancel(",", TypeKey + k, TypeKey + m);
      Cancel(TypeKey, k, m);
  }

  lemma {:induction false} WBlockInjective(x: Block, y: Block, k: string, m: string)
    requires WBlock(x, k) == WBlock(y, m)
    ensures x == y && k == m
    decreases x, 3
  {
    var tx, ty := TypeKey + WStr(x.kind, "}" + k), TypeKey + WStr(y.kind, "}" + m);
    var ix, iy := "," + WId(x.id, tx), "," + WId(y.id, ty);
    var cx, cy := ",\"contents\":" + WContents(x.contents, ix), ",\"contents\":" + WContents(y.contents, iy);
    Cancel("{\"args\":", WArgs(x.args, cx), WArgs(y.args, cy));
    WArgsInjective(x.args, y.args, cx, cy);
    Cancel(",\"contents\":", WContents(x.contents, ix), WContents(y.contents, iy));
    WContentsInjective(x.contents, y.contents, ix, iy);
    Cancel(",", WId(x.id, tx), WId(y.id, ty));
    WIdInjective(x.id, y.id, WStr(x.kind, "}" + k), WStr(y.kind, "}" + m));
    WStrInjective(x.kind, y.kind, "}" + k, "}" + m);
    Cancel("}", k, m);
  }

  lemma BlockItemsHead(bs: seq<Block>, k: string)
    ensures |WBlockItems(bs, "]" + k)| > 0 && (WBlockItems(bs, "]" + k)[0] == ']' <==> bs == [])
  {
    if bs != [] {
      BlockHead(bs[0], WBlockAfter(bs[1..], "]" + k));
    }
  }

  lemma {:induction false} WBlockItemsInjective(xs: seq<Block>, ys: seq<Block>, k: string, m: string)
    requires WBlockItems(xs, "]" + k) == WBlockItems(ys, "]" + m)
    ensures xs == ys && k == m
    decreases xs, 1
  {
    BlockItemsHead(xs, k);
    BlockItemsHead(ys, m);
    if xs == [] {
      assert ys == [];
      Cancel("]", k, m);
    } else {
      assert ys != [];
      WBlockInjective(xs[0], ys[0], WBlockAfter(xs[1..], "]" + k), WBlockAfter(ys[1..], "]" + m));
      WBlockAfterInjective(xs[1..], ys[1..], k, m);
      assert xs == [xs[0]] + xs[1..] && ys == [ys[0]] + ys[1..];
    }
  }

  lemma {:induction false} WBlockAfterInjective(xs: seq<Block>, ys: seq<Block>, k: string, m: string)
    requires WBlockAfter(xs, "]" + k) == WBlockAfter(ys, "]" + m)
    ensures xs == ys && k == m
    decreases xs, 2
  {
    assert WBlockAfter(xs, "]" + k)[0] == WBlockAfter(ys, "]" + m)[0];
    if xs == [] {
      assert ys == [];
      Cancel("]", k, m);
    } else {
      assert ys != [];
      Cancel(",", WBlockItems(xs, "]" + k), WBlockItems(ys, "]" + m));
      WBlockItemsInjective(xs, ys, k, m);
    }
  }

  lemma {:induction false} WBlocksInjective(xs: seq<Block>, ys: seq<Block>, k: string, m: string)
    requires WBlocks(xs, k) == WBlocks(ys, m)
    ensures xs == ys && k == m
    decreases xs, 2
  {
    Cancel("[", WBlockItems(xs, "]" + k), WBlockItems(ys, "]" + m));
    WBlockItemsInjective(xs, ys, k, m);
  }

  lemma {:induction false} WContentInjective(x: Content, y: Content, k: string, m: string)
    requires WContent(x, k) == WContent(y, m)
    ensures x == y && k == m
    decreases x, 3
  {
    ContentHead(x, k);
    ContentHead(y, m);
    assert WContent(x, k)[2] == WContent(y, m)[2];
    match x
    case B(b) =>
      assert y.B?;
      WBlockInjective(b, y.block, k, m);
    case CB(cs) =>
      assert y.CB?;
      Cancel("{\"contents\":", WContents(cs, "}" + k), WContents(y.contents, "}" + m));
      WContentsInjective(cs, y.contents, "}" + k, "}" + m);
      Cancel("}", k, m);
  }

  lemma ContentItemsHead(cs: seq<Content>, k: string)
    ensures |WContentItems(cs, "]" + k)| > 0 && (WContentItems(cs, "]" + k)[0] == ']' <==> cs == [])
  {
    if cs != [] {
      ContentHead(cs[0], WContentAfter(cs[1..], "]" + k));
    }
  }

  lemma {:induction false} WContentItemsInjective(xs: seq<Content>, ys: seq<Content>, k: string, m: string)
    requires WContentItems(xs, "]" + k) == WContentItems(ys, "]" + m)
    ensures xs == ys && k == m
    decreases xs, 1
  {
    ContentItemsHead(xs, k);
    ContentItemsHead(ys, m);
    if xs == [] {
      assert ys == [];
      Cancel("]", k, m);
    } else {
      assert ys != [];
      WContentInjective(xs[0], ys[0], WContentAfter(xs[1..], "]" + k), WContentAfter(ys[1..], "]" + m));
      WContentAfterInjective(xs[1..], ys[1..], k, m);
      assert xs == [xs[0]] + xs[1..] && ys == [ys[0]] + ys[1..];
    }
  }

  lemma {:induction false} WContentAfterInjective(xs: seq<Content>, ys: seq<Content>, k: string, m: string)
    requires WContentAfter(xs, "]" + k) == WContentAfter(ys, "]" + m)
    ensures xs == ys && k == m
    decreases xs, 2
  {
    assert WContentAfter(xs, "]" + k)[0] == WContentAfter(ys, "]" + m)[0];
    if xs == [] {
      assert ys == [];
      Cancel("]", k, m);
    } else {
      assert ys != [];
      Cancel(",", WContentItems(xs, "]" + k), WContentItems(ys, "]" + m));
      WContentItemsInjective(xs, ys, k, m);
    }
  }

  lemma {:induction false} WContentsInjective(xs: seq<Content>, ys: seq<Content>, k: string, m: string)
    requires WContents(xs, k) == WContents(ys, m)
    ensures xs == ys && k == m
    decreases xs, 2
  {
    Cancel("[", WContentItems(xs, "]" + k), WContentItems(ys, "]" + m));
    WContentItemsInjective(xs, ys, k, m);
  }

  // ------------------------------------------------------- sort keys

  /** Different arguments have different JSON texts, so sorting by them is deterministic. */
  lemma SerArgInjective()
    ensures Sorting.Injective(SerArg)
  {
    forall x, y | SerArg(x) == SerArg(y)
      ensures x == y
    {
      WArgInjective(x, y, "", "");
    }
  }

  lemma SerContentInjective()
    ensures Sorting.Injective(SerContent)
  {
    forall x, y | SerContent(x) == SerContent(y)
      ensures x == y
    {
      WContentInjective(x, y, "", "");
    }
  }

  lemma SerGraphInjective()
    ensures Sorting.Injective(SerGraph)
  {
    forall x, y | SerGraph(x) == SerGraph(y)
      ensures x == y
    {
      WBlocksInjective(x, y, "", "");
    }
  }
}
