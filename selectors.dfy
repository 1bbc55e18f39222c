/**
 * The response-phrase language of the add-service form: a phrase is plain
 * text in which `{element>key>key}` groups stand for values picked out of
 * the service's example response, and `\` escapes the next character.
 */
module Selectors {
  import opened Results
  import opened Text

  // ------------------------------------------------------------ JSON values

  /** A value of the example response, as JavaScript sees it. */
  datatype Json =
    | Undefined
    | Null
    | Bool(b: bool)
    | Num(n: int)
    | Str(s: string)
    | Arr(items: seq<Json>)
    | Obj(fields: map<string, Json>)

  /** Reading a property of `undefined` or `null` throws a `TypeError`. */
  datatype JsError = CannotReadProperty(key: string)

  /** The array index a property name denotes: a decimal numeral without leading zeros. */
  function ArrayIndex(key: string): (r: Option<nat>)
    ensures r.Some? ==> NatToString(r.value) == key
  {
    if NatToString(ParseDigits(key)) == key then Some(ParseDigits(key))
    else None
  }

  /** Every index is reached by its own decimal numeral. */
  lemma ArrayIndexOfNumeral(n: nat)
    ensures ArrayIndex(NatToString(n)) == Some(n)
  {
    NatRoundTrip(n);
  }

  /** `v[key]` */
  function Step(v: Json, key: string): (r: Result<Json, JsError>)
    ensures r.Err? <==> v.Undefined? || v.Null?
    ensures v.Str? && r.Ok? && r.value.Str? ==> |r.value.s| == 1 && r.value.s[0] in v.s
  {
    match v
    case Undefined => Err(CannotReadProperty(key))
    case Null => Err(CannotReadProperty(key))
    case Bool(_) => Ok(Undefined)
    case Num(_) => Ok(Undefined)
    case Str(s) =>
      if key == "length" then Ok(Num(|s|))
      else if ArrayIndex(key).Some? && ArrayIndex(key).value < |s| then Ok(Str([s[ArrayIndex(key).value]]))
      else Ok(Undefined)
    case Arr(items) =>
      if key == "length" then Ok(Num(|items|))
      else if ArrayIndex(key).Some? && ArrayIndex(key).value < |items| then Ok(items[ArrayIndex(key).value])
      else Ok(Undefined)
    case Obj(fields) =>
      if key in fields then Ok(fields[key]) else Ok(Undefined)
  }

  /** Follows a path of property names from `v`, one step after another. */
  function Follow(v: Json, keys: seq<string>): Result<Json, JsError>
    decreases keys
  {
    if keys == [] then Ok(v)
    else
      match Step(v, keys[0])
      case Err(e) => Err(e)
      case Ok(w) => Follow(w, keys[1..])
  }

  /** `evalSelector`, as a function: the first part names the root and is not looked up. */
  function Select(selector: seq<string>, data: Json): (r: Result<Json, JsError>)
    ensures |selector| <= 1 ==> r == Ok(data)
  {
    Follow(data, if selector == [] then [] else selector[1..])
  }

  /** `evalSelector`: walks `data` along `selector[1..]`. */
  method EvalSelector(selector: seq<string>, data: Json) returns (r: Result<Json, JsError>)
    ensures r == Select(selector, data)
  {
    var step := data;
    var i := 1;
    while i < |selector|
      invariant 1 <= i && (selector != [] ==> i <= |selector|)
      invariant Select(selector, data) == Follow(step, if selector == [] then [] else selector[i..])
    {
      assert selector[i..][0] == selector[i] && selector[i..][1..] == selector[i + 1..];
      var next := Step(step, selector[i]);
      if next.Err? {
        return Err(next.error);
      }
      step := next.value;
      i := i + 1;
    }
    assert selector != [] ==> selector[i..] == [];
    r := Ok(step);
  }

  /** How `Array.prototype.join` writes an element: nothing for `null` and `undefined`. */
  function JoinString(v: Json): string
  {
    match v
    case Undefined => ""
    case Null => ""
    case Bool(b) => if b then "true" else "false"
    case Num(n) => IntToString(n)
    case Str(s) => s
    case Arr(items) => JoinItems(items)
    case Obj(_) => "[object Object]"
  }

  /** An array written as its elements joined by commas. */
  function JoinItems(items: seq<Json>): string
  {
    if items == [] then ""
    else if |items| == 1 then JoinString(items[0])
    else JoinString(items[0]) + "," + JoinItems(items[1..])
  }

  // ---------------------------------------------------------------- phrases

  /** A phrase after scanning: literal characters and selector groups. */
  datatype Piece = Lit(c: char) | Group(parts: seq<string>)

  /** Ends a part at the end of a group: an empty last part is dropped. */
  function Flush(parts: seq<string>, cur: string): seq<string>
  {
    if |cur| > 0 then parts + [cur] else parts
  }

  /**
   * The inside of a group, from just after `{`: the parts, and the phrase
   * after the closing `}` (empty when the group is never closed).
   */
  function ScanGroup(s: string, parts: seq<string>, cur: string): (r: (seq<string>, string))
    ensures |r.1| <= |s|
  {
    if s == [] then (Flush(parts, cur), [])
    else if s[0] == '\\' && |s| > 1 then ScanGroup(s[2..], parts, cur + [s[1]])
    else if s[0] == '>' then ScanGroup(s[1..], parts + [cur], "")
    else if s[0] != '}' then ScanGroup(s[1..], parts, cur + [s[0]])
    else (Flush(parts, cur), s[1..])
  }

  /** The pieces of a phrase, in order. */
  function Scan(phrase: string): (r: seq<Piece>)
    ensures |r| <= |phrase|
    decreases |phrase|
  {
    if phrase == [] then []
    else if phrase[0] == '\\' && |phrase| > 1 then [Lit(phrase[1])] + Scan(phrase[2..])
    else if phrase[0] != '{' then [Lit(phrase[0])] + Scan(phrase[1..])
    else
      var (parts, rest) := ScanGroup(phrase[1..], [], "");
      [Group(parts)] + Scan(rest)
  }

  /** The text one piece stands for: a group is replaced by the value it selects. */
  function RenderPiece(p: Piece, data: Json): Result<string, JsError>
  {
    match p
    case Lit(c) => Ok([c])
    case Group(parts) =>
      match Select(parts, data)
      case Err(e) => Err(e)
      case Ok(v) => Ok(JoinString(v))
  }

  /** The text of the pieces, in order; the first failing lookup aborts. */
  function Render(pieces: seq<Piece>, data: Json): Result<string, JsError>
  {
    if pieces == [] then Ok("")
    else
      match RenderPiece(pieces[0], data)
      case Err(e) => Err(e)
      case Ok(h) => Prefix(h, Render(pieces[1..], data))
  }

  /** `done + rest`, unless `rest` failed. */
  function Prefix(done: string, rest: Result<string, JsError>): Result<string, JsError>
  {
    match rest
    case Err(e) => Err(e)
    case Ok(t) => Ok(done + t)
  }

  /** `resolveSelectors`, as a function. */
  function Resolve(phrase: string, data: Json): Result<string, JsError>
  {
    Render(Scan(phrase), data)
  }

  /** `s[i..]`, or nothing once `i` has run past the end. */
  function Drop(s: string, i: nat): string
  {
    if i <= |s| then s[i..] else []
  }

  /**
   * `resolveSelectors`: one pass over the phrase; at `{` an inner loop
   * collects the parts up to `}`, and the value they select is appended.
   */
  method ResolveSelectors(phrase: string, data: Json) returns (r: Result<string, JsError>)
    ensures r == Resolve(phrase, data)
  {
    var result := "";
    var i: nat := 0;
    ResolveStart(phrase, data);
    while i < |phrase|
      invariant i <= |phrase| + 1
      invariant Accounted(phrase, data, result, i)
      decreases |phrase| + 1 - i
    {
      if phrase[i] == '\\' && |phrase| > i + 1 {
        EscapedStep(phrase, i, result, data);
        result := result + [phrase[i + 1]];
        i := i + 2;
      } else if phrase[i] != '{' {
        PlainStep(phrase, i, result, data);
        result := result + [phrase[i]];
        i := i + 1;
      } else {
        var value;
        value, i := ResolveGroup(phrase, i, result, data);
        if value.Err? {
          return Err(value.error);
        }
        result := result + value.value;
        i := i + 1;
      }
    }
    ResolveEnd(phrase, i, result, data);
    r := Ok(result);
  }

  /**
   * The group opening at `open`: its parts are read, and the value they
   * select is looked up and written as text.
   */
  method ResolveGroup(phrase: string, open: nat, result: string, data: Json) returns (value: Result<string, JsError>, close: nat)
    requires open < |phrase| && phrase[open] == '{'
    requires Accounted(phrase, data, result, open)
    ensures open < close <= |phrase|
    ensures value.Err? ==> Resolve(phrase, data) == Err(value.error)
    ensures value.Ok? ==> Accounted(phrase, data, result + value.value, close + 1)
  {
    var selectorParts;
    selectorParts, close := ReadGroup(phrase, open + 1);
    var v := EvalSelector(selectorParts, data);
    GroupStep(phrase, open, close, selectorParts, result, data);
    if v.Err? {
      return Err(v.error), close;
    }
    value := Ok(JoinString(v.value));
  }

  /**
   * The inner loop of `resolveSelectors`: from just after `{`, collects the
   * parts of the selector and stops at the closing `}` (or the end).
   */
  method ReadGroup(phrase: string, start: nat) returns (parts: seq<string>, i: nat)
    requires start <= |phrase|
    ensures start <= i <= |phrase|
    ensures ScanGroup(phrase[start..], [], "") == (parts, Drop(phrase, i + 1))
  {
    parts := [];
    var selector := "";
    i := start;
    while i < |phrase|
      invariant start <= i <= |phrase|
      invariant ScanGroup(phrase[start..], [], "") == ScanGroup(phrase[i..], parts, selector)
    {
      ScanGroupAt(phrase, i, parts, selector);
      if phrase[i] == '\\' && |phrase| > i + 1 {
        selector := selector + [phrase[i + 1]];
        i := i + 1;
      } else if phrase[i] == '>' {
        parts := parts + [selector];
        selector := "";
      } else if phrase[i] != '}' {
        selector := selector + [phrase[i]];
      } else {
        break;
      }
      i := i + 1;
    }
    ScanGroupEnd(phrase, i, parts, selector);
    if |selector| > 0 {
      parts := parts + [selector];
    }
  }

  lemma ScanAt(p: string, i: nat)
    requires i < |p|
    ensures Scan(Drop(p, i)) ==
      if p[i] == '\\' && |p| > i + 1 then [Lit(p[i + 1])] + Scan(Drop(p, i + 2))
      else if p[i] != '{' then [Lit(p[i])] + Scan(Drop(p, i + 1))
      else [Group(ScanGroup(p[i + 1..], [], "").0)] + Scan(ScanGroup(p[i + 1..], [], "").1)
  {
    var s := p[i..];
    assert s[0] == p[i] && s[1..] == p[i + 1..];
    if |p| > i + 1 {
      assert s[1] == p[i + 1] && s[2..] == p[i + 2..];
    }
  }

  lemma ScanGroupAt(p: string, i: nat, parts: seq<string>, cur: string)
    requires i < |p|
    ensures ScanGroup(p[i..], parts, cur) ==
      if p[i] == '\\' && |p| > i + 1 then ScanGroup(p[i + 2..], parts, cur + [p[i + 1]])
      else if p[i] == '>' then ScanGroup(p[i + 1..], parts + [cur], "")
      else if p[i] != '}' then ScanGroup(p[i + 1..], parts, cur + [p[i]])
      else (Flush(parts, cur), Drop(p, i + 1))
  {
    var s := p[i..];
    assert s[0] == p[i] && s[1..] == p[i + 1..];
    if |p| > i + 1 {
      assert s[1] == p[i + 1] && s[2..] == p[i + 2..];
    }
  }

  lemma ScanGroupEnd(p: string, i: nat, parts: seq<string>, cur: string)
    requires i <= |p|
    requires i < |p| ==> p[i] == '}'
    ensures ScanGroup(p[i..], parts, cur) == (Flush(parts, cur), Drop(p, i + 1))
  {
    if i < |p| {
      ScanGroupAt(p, i, parts, cur);
    } else {
      assert p[i..] == [];
    }
  }

  lemma ResolveStart(phrase: string, data: Json)
    ensures Accounted(phrase, data, "", 0)
  {
    assert Drop(phrase, 0) == phrase;
    if Resolve(phrase, data).Ok? {
      assert "" + Resolve(phrase, data).value == Resolve(phrase, data).value;
    }
  }

  lemma ResolveEnd(phrase: string, i: nat, result: string, data: Json)
    requires i >= |phrase|
    requires Accounted(phrase, data, result, i)
    ensures Resolve(phrase, data) == Ok(result)
  {
    assert Drop(phrase, i) == [];
    assert result + "" == result;
  }

  /** The loop's account: the text so far, then what the phrase from `i` on resolves to, is the whole. */
  ghost predicate Accounted(phrase: string, data: Json, result: string, i: nat)
  {
    Resolve(phrase, data) == Prefix(result, Unresolved(phrase, i, data))
  }

  /** What the phrase from position `i` on resolves to. */
  function Unresolved(phrase: string, i: nat, data: Json): Result<string, JsError>
  {
    Render(Scan(Drop(phrase, i)), data)
  }

  /** An escaped character moves from the phrase to the result. */
  lemma EscapedStep(phrase: string, i: nat, result: string, data: Json)
    requires i + 1 < |phrase| && phrase[i] == '\\'
    requires Accounted(phrase, data, result, i)
    ensures Accounted(phrase, data, result + [phrase[i + 1]], i + 2)
  {
    ScanAt(phrase, i);
    StepPiece(result, Lit(phrase[i + 1]), Drop(phrase, i + 2), data);
  }

  /** A character other than `{` (and not an escape) moves from the phrase to the result. */
  lemma PlainStep(phrase: string, i: nat, result: string, data: Json)
    requires i < |phrase| && phrase[i] != '{'
    requires !(phrase[i] == '\\' && |phrase| > i + 1)
    requires Accounted(phrase, data, result, i)
    ensures Accounted(phrase, data, result + [phrase[i]], i + 1)
  {
    ScanAt(phrase, i);
    StepPiece(result, Lit(phrase[i]), Drop(phrase, i + 1), data);
  }

  /** A group moves from the phrase to the result as the text of the value it selects. */
  lemma GroupStep(phrase: string, open: nat, close: nat, parts: seq<string>, result: string, data: Json)
    requires open < |phrase| && phrase[open] == '{'
    requires open + 1 <= close <= |phrase|
    requires ScanGroup(phrase[open + 1..], [], "") == (parts, Drop(phrase, close + 1))
    requires Accounted(phrase, data, result, open)
    ensures Select(parts, data).Err? ==> Resolve(phrase, data) == Err(Select(parts, data).error)
    ensures Select(parts, data).Ok? ==> Accounted(phrase, data, result + JoinString(Select(parts, data).value), close + 1)
  {
    ScanAt(phrase, open);
    StepPiece(result, Group(parts), Drop(phrase, close + 1), data);
  }

  /** The loop's account of the phrase after one more piece is written. */
  lemma StepPiece(done: string, p: Piece, rest: string, data: Json)
    ensures RenderPiece(p, data).Err? ==>
      Prefix(done, Render([p] + Scan(rest), data)) == Err(RenderPiece(p, data).error)
    ensures RenderPiece(p, data).Ok? ==>
      Prefix(done, Render([p] + Scan(rest), data)) == Prefix(done + RenderPiece(p, data).value, Render(Scan(rest), data))
  {
    var ps := [p] + Scan(rest);
    assert ps[0] == p && ps[1..] == Scan(rest);
    if RenderPiece(p, data).Ok? && Render(Scan(rest), data).Ok? {
      Assoc(done, RenderPiece(p, data).value, Render(Scan(rest), data).value);
    }
  }

  // --------------------------------------------------------------- writing

  /** `e.replace(c, "\\" + c)`: only the first occurrence is escaped. */
  function EscapeFirst(e: string, c: char): (r: string)
    ensures c !in e ==> r == e
  {
    if e == [] then []
    else if e[0] == c then ['\\', c] + e[1..]
    else [e[0]] + EscapeFirst(e[1..], c)
  }

  /** A `\` goes in front of the first `c`, at `k`; everything after it is left alone. */
  lemma {:induction false} EscapeFirstAt(e: string, c: char, k: nat)
    requires k < |e| && e[k] == c && c !in e[..k]
    ensures EscapeFirst(e, c) == e[..k] + ['\\'] + e[k..]
  {
    if k == 0 {
      assert e[k..] == [c] + e[1..];
    } else {
      assert e[..k] == [e[0]] + e[1..k];
      assert e[1..][..k - 1] == e[1..k];
      EscapeFirstAt(e[1..], c, k - 1);
      assert e[1..][k - 1..] == e[k..];
    }
  }

  /**
   * A part holding `>` twice keeps its second `>` unescaped, so it is read
   * back as two parts.
   */
  lemma SecondSeparatorUnescaped()
    ensures EncodePart("a>b>c") == "a\\>b>c"
  {
    var e := "a>b>c";
    assert e[..1] == "a" && e[1..] == ">b>c";
    EscapeFirstAt(e, '>', 1);
    assert '}' !in "a\\>b>c";
  }

  /** One part as `selectorToString` writes it. */
  function EncodePart(e: string): string
  {
    EscapeFirst(EscapeFirst(e, '>'), '}')
  }

  /** `parts.join('>')` */
  function JoinParts(parts: seq<string>): string
  {
    if parts == [] then ""
    else if |parts| == 1 then parts[0]
    else parts[0] + ">" + JoinParts(parts[1..])
  }

  function EncodeAll(parts: seq<string>): (r: seq<string>)
    ensures |r| == |parts| && forall i :: 0 <= i < |parts| ==> r[i] == EncodePart(parts[i])
  {
    if parts == [] then [] else [EncodePart(parts[0])] + EncodeAll(parts[1..])
  }

  /**
   * `selectorToString`: the root `element`, then the path, with separators
   * escaped. The root has nothing to escape, so it is written as it is
   * (`SelectorToStringAsWritten` shows this is escaping every part).
   */
  function SelectorToString(selector: seq<string>): (r: string)
    ensures |r| >= 7 && r[..7] == "element"
    ensures selector == [] <==> r == "element"
  {
    JoinParts(["element"] + EncodeAll(selector))
  }

  /** `selectorToString` escapes every part of `["element"].concat(selector)` and joins them with `>`. */
  lemma SelectorToStringAsWritten(selector: seq<string>)
    ensures SelectorToString(selector) == JoinParts(EncodeAll(["element"] + selector))
  {
    ElementWritable();
    EncodeAllCons("element", selector);
  }

  /** The root part has nothing to escape. */
  lemma ElementWritable()
    ensures WritablePart("element") && EncodePart("element") == "element"
  {
    assert '>' !in "element" && '}' !in "element" && '\\' !in "element";
  }

  lemma EncodeAllCons(x: string, xs: seq<string>)
    ensures EncodeAll([x] + xs) == [EncodePart(x)] + EncodeAll(xs)
  {
    assert ([x] + xs)[1..] == xs;
  }

  // ------------------------------------------------------------ properties

  /** A phrase with no `{` and no `\` resolves to itself, whatever the data. */
  lemma {:induction false} PlainPhraseUnchanged(phrase: string, data: Json)
    requires forall k :: 0 <= k < |phrase| ==> phrase[k] != '{' && phrase[k] != '\\'
    ensures Resolve(phrase, data) == Ok(phrase)
    decreases |phrase|
  {
    if phrase != [] {
      var t := phrase[1..];
      PlainPhraseUnchanged(t, data);
      var ps := Scan(phrase);
      assert ps == [Lit(phrase[0])] + Scan(t);
      assert ps[0] == Lit(phrase[0]) && ps[1..] == Scan(t);
      assert [phrase[0]] + t == phrase;
    }
  }

  /** Outside a group, `\c` stands for `c`; a `\` at the very end stands for itself. */
  lemma EscapeOutside(c: char, rest: string)
    ensures Scan(['\\', c] + rest) == [Lit(c)] + Scan(rest)
    ensures Scan(['\\']) == [Lit('\\')]
  {
    var s := ['\\', c] + rest;
    assert s[2..] == rest;
    assert ['\\'][1..] == [];
  }

  /** Inside a group, `\c` adds `c` to the part; a `\` at the very end is kept as itself. */
  lemma EscapeInside(c: char, rest: string, parts: seq<string>, cur: string)
    ensures ScanGroup(['\\', c] + rest, parts, cur) == ScanGroup(rest, parts, cur + [c])
    ensures ScanGroup(['\\'], parts, cur) == (parts + [cur + ['\\']], [])
  {
    var s := ['\\', c] + rest;
    assert s[2..] == rest;
    assert ['\\'][1..] == [];
  }

  /**
   * Inside a group, `>` ends the current part even when it is empty, and `}`
   * ends the group, keeping the last part only when it is not empty.
   */
  lemma GroupDelimiters(rest: string, parts: seq<string>, cur: string)
    ensures ScanGroup(['>'] + rest, parts, cur) == ScanGroup(rest, parts + [cur], "")
    ensures ScanGroup(['}'] + rest, parts, "") == (parts, rest)
    ensures cur != "" ==> ScanGroup(['}'] + rest, parts, cur) == (parts + [cur], rest)
  {
    assert (['>'] + rest)[1..] == rest;
    assert (['}'] + rest)[1..] == rest;
  }

  /** A group whose `}` never comes consumes the rest of the phrase. */
  lemma {:induction false} UnterminatedGroup(s: string, parts: seq<string>, cur: string)
    requires '}' !in s
    ensures ScanGroup(s, parts, cur).1 == []
    decreases |s|
  {
    if s != [] {
      if s[0] == '\\' && |s| > 1 {
        assert forall k :: 0 <= k < |s[2..]| ==> s[2..][k] == s[k + 2];
        UnterminatedGroup(s[2..], parts, cur + [s[1]]);
      } else if s[0] == '>' {
        assert forall k :: 0 <= k < |s[1..]| ==> s[1..][k] == s[k + 1];
        UnterminatedGroup(s[1..], parts + [cur], "");
      } else {
        assert s[0] in s;
        assert forall k :: 0 <= k < |s[1..]| ==> s[1..][k] == s[k + 1];
        UnterminatedGroup(s[1..], parts, cur + [s[0]]);
      }
    }
  }

  /** An unterminated `{` turns everything after it into one last group. */
  lemma UnterminatedPhrase(s: string)
    requires '}' !in s
    ensures Scan("{" + s) == [Group(ScanGroup(s, [], "").0)]
  {
    assert ("{" + s)[1..] == s;
    UnterminatedGroup(s, [], "");
  }

  /** `Follow` along two paths is `Follow` along the first, then the second. */
  lemma {:induction false} FollowAppend(v: Json, a: seq<string>, b: seq<string>)
    ensures Follow(v, a + b) == (match Follow(v, a) case Err(e) => Err(e) case Ok(w) => Follow(w, b))
    decreases a
  {
    if a == [] {
      assert a + b == b;
    } else {
      assert (a + b)[0] == a[0] && (a + b)[1..] == a[1..] + b;
      if Step(v, a[0]).Ok? {
        FollowAppend(Step(v, a[0]).value, a[1..], b);
      }
    }
  }

  /**
   * A selector is looked up from its second part on, one key after another:
   * the first part never matters, and one more part is one more `Step`.
   */
  lemma SelectSteps(root: string, other: string, path: seq<string>, key: string, data: Json)
    ensures Select([root] + path, data) == Select([other] + path, data)
    ensures Select([root] + path + [key], data)
         == (match Select([root] + path, data) case Err(e) => Err(e) case Ok(v) => Step(v, key))
  {
    assert ([root] + path)[1..] == path && ([other] + path)[1..] == path;
    assert ([root] + path + [key])[1..] == path + [key];
    FollowAppend(data, path, [key]);
    forall w | true
      ensures Follow(w, [key]) == Step(w, key)
    {
      assert [key][1..] == [];
    }
  }

  // ------------------------------------------------------------ round trip

  /** What `selectorToString` can write back faithfully: no `\`, at most one `>` and one `}`. */
  predicate WritablePart(e: string)
  {
    '\\' !in e && Occurrences(e, '>') <= 1 && Occurrences(e, '}') <= 1
  }

  /** How many times `c` occurs in `e`. */
  function Occurrences(e: string, c: char): (n: nat)
    ensures n == 0 <==> c !in e
  {
    if e == [] then 0 else (if e[0] == c then 1 else 0) + Occurrences(e[1..], c)
  }

  /** Every `>` and `}` escaped, the spelling the scanner reads back as the part. */
  function EscapeAll(e: string): (r: string)
    ensures |r| >= |e|
  {
    if e == [] then []
    else (if e[0] == '>' || e[0] == '}' then ['\\', e[0]] else [e[0]]) + EscapeAll(e[1..])
  }

  /** Escaping puts `\` in front of characters and adds nothing else. */
  lemma {:induction false} EscapeFirstAddsOnlyBackslash(e: string, c: char, d: char)
    requires d != '\\'
    ensures d in EscapeFirst(e, c) <==> d in e
    decreases |e|
  {
    if e != [] && e[0] != c {
      EscapeFirstAddsOnlyBackslash(e[1..], c, d);
      assert e == [e[0]] + e[1..];
    }
  }

  /** On a part it can write, escaping only the first `>` and `}` escapes every one. */
  lemma {:induction false} EncodeEscapesAll(e: string)
    requires WritablePart(e)
    ensures EncodePart(e) == EscapeAll(e)
    decreases |e|
  {
    if e != [] {
      var y, t := e[0], e[1..];
      assert e == [y] + t;
      WritableTail(y, t);
      EncodeEscapesAll(t);
      if y == '>' {
        EncodeSeparator(t);
      } else if y == '}' {
        EncodeCloser(t);
      } else {
        EncodePlain(y, t);
      }
    }
  }

  lemma EscapeFirstCons(y: char, t: string, c: char)
    ensures EscapeFirst([y] + t, c) == if y == c then ['\\', c] + t else [y] + EscapeFirst(t, c)
  {
    assert ([y] + t)[0] == y && ([y] + t)[1..] == t;
  }

  lemma EscapeAllCons(y: char, t: string)
    ensures EscapeAll([y] + t) == (if y == '>' || y == '}' then ['\\', y] else [y]) + EscapeAll(t)
  {
    assert ([y] + t)[0] == y && ([y] + t)[1..] == t;
  }

  lemma OccurrencesCons(y: char, t: string, c: char)
    ensures Occurrences([y] + t, c) == (if y == c then 1 else 0) + Occurrences(t, c)
  {
    assert ([y] + t)[0] == y && ([y] + t)[1..] == t;
  }

  /** What a writable part says about its first character and the others. */
  lemma WritableTail(y: char, t: string)
    requires WritablePart([y] + t)
    ensures WritablePart(t) && y != '\\'
    ensures y == '>' ==> '>' !in t
    ensures y == '}' ==> '}' !in t
  {
    OccurrencesCons(y, t, '>');
    OccurrencesCons(y, t, '}');
    assert y in [y] + t;
    assert forall x :: x in t ==> x in [y] + t;
  }

  lemma EncodeSeparator(t: string)
    requires '>' !in t
    requires EncodePart(t) == EscapeAll(t)
    ensures EncodePart(['>'] + t) == EscapeAll(['>'] + t)
  {
    EscapeFirstCons('>', t, '>');
    Pair('\\', '>', t);
    EscapeFirstCons('\\', ['>'] + t, '}');
    EscapeFirstCons('>', t, '}');
    Pair('\\', '>', EscapeFirst(t, '}'));
    EscapeAllCons('>', t);
  }

  lemma Pair(x: char, y: char, t: string)
    ensures [x, y] + t == [x] + ([y] + t)
  {
  }

  lemma EncodeCloser(t: string)
    requires '}' !in t
    requires EncodePart(t) == EscapeAll(t)
    ensures EncodePart(['}'] + t) == EscapeAll(['}'] + t)
  {
    EscapeFirstCons('}', t, '>');
    EscapeFirstAddsOnlyBackslash(t, '>', '}');
    EscapeFirstCons('}', EscapeFirst(t, '>'), '}');
    EscapeAllCons('}', t);
  }

  lemma EncodePlain(y: char, t: string)
    requires y != '>' && y != '}'
    requires EncodePart(t) == EscapeAll(t)
    ensures EncodePart([y] + t) == EscapeAll([y] + t)
  {
    EscapeFirstCons(y, t, '>');
    EscapeFirstCons(y, EscapeFirst(t, '>'), '}');
    EscapeAllCons(y, t);
  }

  /** Inside a group, an escaped part is read back character for character. */
  lemma {:induction false} ScanEscaped(e: string, rest: string, parts: seq<string>, cur: string)
    requires '\\' !in e
    ensures ScanGroup(EscapeAll(e) + rest, parts, cur) == ScanGroup(rest, parts, cur + e)
    decreases |e|
  {
    if e == [] {
      assert EscapeAll(e) + rest == rest && cur + e == cur;
    } else {
      var y, t := e[0], e[1..];
      assert e == [y] + t;
      assert y in e;
      assert forall x :: x in t ==> x in e;
      ScanEscaped(t, rest, parts, cur + [y]);
      if y == '>' || y == '}' {
        ScanEscapedSpecial(y, t, rest, parts, cur);
      } else {
        ScanEscapedPlain(y, t, rest, parts, cur);
      }
    }
  }

  /** An escaped `>` or `}` of a part is read back. */
  lemma ScanEscapedSpecial(y: char, t: string, rest: string, parts: seq<string>, cur: string)
    requires y == '>' || y == '}'
    requires ScanGroup(EscapeAll(t) + rest, parts, cur + [y]) == ScanGroup(rest, parts, cur + [y] + t)
    ensures ScanGroup(EscapeAll([y] + t) + rest, parts, cur) == ScanGroup(rest, parts, cur + ([y] + t))
  {
    EscapeAllCons(y, t);
    Assoc(['\\', y], EscapeAll(t), rest);
    EscapeInside(y, EscapeAll(t) + rest, parts, cur);
    Assoc(cur, [y], t);
  }

  /** Any other character of a part is read back. */
  lemma ScanEscapedPlain(y: char, t: string, rest: string, parts: seq<string>, cur: string)
    requires y != '\\' && y != '>' && y != '}'
    requires ScanGroup(EscapeAll(t) + rest, parts, cur + [y]) == ScanGroup(rest, parts, cur + [y] + t)
    ensures ScanGroup(EscapeAll([y] + t) + rest, parts, cur) == ScanGroup(rest, parts, cur + ([y] + t))
  {
    EscapeAllCons(y, t);
    Assoc([y], EscapeAll(t), rest);
    PlainInside(y, EscapeAll(t) + rest, parts, cur);
    Assoc(cur, [y], t);
  }

  lemma Assoc<T>(a: seq<T>, b: seq<T>, c: seq<T>)
    ensures a + b + c == a + (b + c)
  {
  }

  /** Inside a group, a character other than `\`, `>` and `}` is added to the part. */
  lemma PlainInside(y: char, u: string, parts: seq<string>, cur: string)
    requires y != '\\' && y != '>' && y != '}'
    ensures ScanGroup([y] + u, parts, cur) == ScanGroup(u, parts, cur + [y])
  {
    assert ([y] + u)[0] == y && ([y] + u)[1..] == u;
  }

  /** A written part followed by `}` is read back as the last part of its group. */
  lemma ScanLastPart(p: string, rest: string, parts: seq<string>)
    requires WritablePart(p)
    ensures ScanGroup(EncodePart(p) + "}" + rest, parts, "") == (Flush(parts, p), rest)
  {
    EncodeEscapesAll(p);
    ScanEscaped(p, "}" + rest, parts, "");
    assert "" + p == p;
    assert ("}" + rest)[0] == '}' && ("}" + rest)[1..] == rest;
    assert EncodePart(p) + "}" + rest == EscapeAll(p) + ("}" + rest);
  }

  /** A written part followed by `>` is read back as one part, and reading goes on. */
  lemma ScanInnerPart(p: string, tail: string, parts: seq<string>)
    requires WritablePart(p)
    ensures ScanGroup(EncodePart(p) + ">" + tail, parts, "") == ScanGroup(tail, parts + [p], "")
  {
    EncodeEscapesAll(p);
    ScanEscaped(p, ">" + tail, parts, "");
    assert "" + p == p;
    assert (">" + tail)[0] == '>' && (">" + tail)[1..] == tail;
    assert EncodePart(p) + ">" + tail == EscapeAll(p) + (">" + tail);
  }

  /** Joining two or more parts: the first, `>`, then the others joined. */
  lemma JoinCons(xs: seq<string>, rest: string)
    requires |xs| > 1
    ensures JoinParts(xs) + "}" + rest == xs[0] + ">" + (JoinParts(xs[1..]) + "}" + rest)
  {
  }

  /** Writing two or more parts: the first, `>`, then the rest. */
  lemma JoinedCons(ps: seq<string>, rest: string)
    requires |ps| > 1
    ensures JoinParts(EncodeAll(ps)) + "}" + rest
         == EncodePart(ps[0]) + ">" + (JoinParts(EncodeAll(ps[1..])) + "}" + rest)
  {
    var enc := EncodeAll(ps);
    JoinCons(enc, rest);
    assert enc[0] == EncodePart(ps[0]);
    assert enc[1..] == EncodeAll(ps[1..]);
  }

  /** Reading the first part of two or more leaves the others for the rest of the group. */
  lemma ScanJoinedStep(ps: seq<string>, rest: string, parts: seq<string>)
    requires |ps| > 1 && WritablePart(ps[0])
    requires ScanGroup(JoinParts(EncodeAll(ps[1..])) + "}" + rest, parts + [ps[0]], "")
          == (Flush(parts + [ps[0]] + ps[1..][..|ps[1..]| - 1], ps[1..][|ps[1..]| - 1]), rest)
    ensures ScanGroup(JoinParts(EncodeAll(ps)) + "}" + rest, parts, "")
         == (Flush(parts + ps[..|ps| - 1], ps[|ps| - 1]), rest)
  {
    JoinedCons(ps, rest);
    ScanInnerPart(ps[0], JoinParts(EncodeAll(ps[1..])) + "}" + rest, parts);
    PartsShift(parts, ps);
  }

  lemma PartsShift(parts: seq<string>, ps: seq<string>)
    requires |ps| > 1
    ensures parts + [ps[0]] + ps[1..][..|ps[1..]| - 1] == parts + ps[..|ps| - 1]
    ensures ps[1..][|ps[1..]| - 1] == ps[|ps| - 1]
  {
    var last := |ps| - 1;
    assert ps[1..][..|ps[1..]| - 1] == ps[1..last];
    assert ps[..last] == [ps[0]] + ps[1..last];
  }

  /** The parts written by `JoinParts(EncodeAll(ps))` and closed by `}` are read back. */
  lemma {:induction false} ScanJoined(ps: seq<string>, rest: string, parts: seq<string>)
    requires ps != []
    requires forall i :: 0 <= i < |ps| ==> WritablePart(ps[i])
    ensures ScanGroup(JoinParts(EncodeAll(ps)) + "}" + rest, parts, "")
         == (Flush(parts + ps[..|ps| - 1], ps[|ps| - 1]), rest)
    decreases |ps|
  {
    if |ps| == 1 {
      ScanLastPart(ps[0], rest, parts);
      assert parts + ps[..0] == parts;
    } else {
      ScanJoined(ps[1..], rest, parts + [ps[0]]);
      ScanJoinedStep(ps, rest, parts);
    }
  }

  /**
   * Reading back what `selectorToString` writes: the group `{…}` it makes
   * stands for `element` followed by the selector, provided each part is
   * writable and the last one is not empty.
   */
  lemma SelectorRoundTrip(selector: seq<string>, rest: string)
    requires forall i :: 0 <= i < |selector| ==> WritablePart(selector[i])
    requires selector != [] ==> selector[|selector| - 1] != ""
    ensures Scan("{" + SelectorToString(selector) + "}" + rest) == [Group(["element"] + selector)] + Scan(rest)
  {
    ElementWritable();
    RootWritable("element", selector);
    SelectorToStringAsWritten(selector);
    GroupRoundTrip(["element"] + selector, rest);
  }

  /** A group of writable parts, the last one not empty, is read back as those parts. */
  lemma GroupRoundTrip(ps: seq<string>, rest: string)
    requires ps != [] && ps[|ps| - 1] != ""
    requires forall i :: 0 <= i < |ps| ==> WritablePart(ps[i])
    ensures Scan("{" + JoinParts(EncodeAll(ps)) + "}" + rest) == [Group(ps)] + Scan(rest)
  {
    var x := JoinParts(EncodeAll(ps)) + "}" + rest;
    ScanJoined(ps, rest, []);
    SplitLast(ps);
    GroupAtStart(x);
    Enclose(JoinParts(EncodeAll(ps)), rest);
  }

  lemma SplitLast(xs: seq<string>)
    requires xs != []
    ensures [] + xs[..|xs| - 1] + [xs[|xs| - 1]] == xs
  {
  }

  lemma Enclose(a: string, rest: string)
    ensures "{" + a + "}" + rest == "{" + (a + "}" + rest)
  {
  }

  lemma RootWritable(root: string, selector: seq<string>)
    requires WritablePart(root)
    requires forall i :: 0 <= i < |selector| ==> WritablePart(selector[i])
    ensures forall i :: 0 <= i < |[root] + selector| ==> WritablePart(([root] + selector)[i])
  {
    var ps := [root] + selector;
    forall i | 0 <= i < |ps|
      ensures WritablePart(ps[i])
    {
      if i > 0 {
        assert ps[i] == selector[i - 1];
      }
    }
  }

  /** A phrase opening with `{` starts with the group read from what follows. */
  lemma GroupAtStart(s: string)
    ensures Scan("{" + s) == [Group(ScanGroup(s, [], "").0)] + Scan(ScanGroup(s, [], "").1)
  {
    assert ("{" + s)[1..] == s;
  }
}
