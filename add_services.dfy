/**
 * The state the add-service form keeps while a service is being described:
 * the request being built (its HTTP method, its inputs and headers), the
 * text fields being filled in, and the response phrase with its resolved
 * text.
 */
module AddServicesComponent {
  import opened Results
  import opened Selectors

  // ------------------------------------------------------------ trimming

  /** The characters `String.prototype.trim` removes: white space and line terminators. */
  predicate IsJsSpace(c: char)
  {
    c == '\t' || c == '\U{000B}' || c == '\U{000C}' || c == ' ' || c == '\U{00A0}' || c == '\U{FEFF}'
    || c == '\n' || c == '\r' || c == '\U{2028}' || c == '\U{2029}'
    || c == '\U{1680}' || ('\U{2000}' <= c <= '\U{200A}') || c == '\U{202F}' || c == '\U{205F}' || c == '\U{3000}'
  }

  /** How many characters of white space open `s`. */
  function LeadingSpace(s: string): (n: nat)
    ensures n <= |s|
    ensures forall k :: 0 <= k < n ==> IsJsSpace(s[k])
    ensures n < |s| ==> !IsJsSpace(s[n])
  {
    if s != [] && IsJsSpace(s[0]) then 1 + LeadingSpace(s[1..]) else 0
  }

  /** How many characters of white space close `s`. */
  function TrailingSpace(s: string): (n: nat)
    ensures n <= |s|
    ensures forall k :: |s| - n <= k < |s| ==> IsJsSpace(s[k])
    ensures n < |s| ==> !IsJsSpace(s[|s| - n - 1])
  {
    if s != [] && IsJsSpace(s[|s| - 1]) then 1 + TrailingSpace(s[..|s| - 1]) else 0
  }

  /**
   * `s.trim()`: the slice left after removing white space from both ends.
   * What is removed is all white space, and what is kept has no white
   * space at either end, so exactly the leading and trailing runs go.
   */
  function Trim(s: string): (r: string)
    ensures r != [] ==> !IsJsSpace(r[0]) && !IsJsSpace(r[|r| - 1])
    ensures exists i, j ::
      && 0 <= i <= j <= |s| && r == s[i..j]
      && (forall k :: 0 <= k < i ==> IsJsSpace(s[k]))
      && (forall k :: j <= k < |s| ==> IsJsSpace(s[k]))
  {
    var n := LeadingSpace(s);
    var t := s[n..];
    var m := |t| - TrailingSpace(t);
    assert t[..m] == s[n..n + m];
    assert forall k :: n + m <= k < |s| ==> IsJsSpace(s[k]) by {
      forall k | n + m <= k < |s|
        ensures IsJsSpace(s[k])
      {
        assert s[k] == t[k - n];
      }
    }
    t[..m]
  }

  /** A field trims to something exactly when it holds a character that is not white space. */
  lemma TrimmedNonEmpty(s: string)
    ensures Trim(s) != [] <==> exists k :: 0 <= k < |s| && !IsJsSpace(s[k])
  {
    var n := LeadingSpace(s);
    var t := s[n..];
    if exists k :: 0 <= k < |s| && !IsJsSpace(s[k]) {
      var k :| 0 <= k < |s| && !IsJsSpace(s[k]);
      assert n < |s|;
      assert t[0] == s[n] && !IsJsSpace(t[0]);
      assert TrailingSpace(t) < |t|;
    } else {
      assert n == |s|;
    }
  }

  /** Trimming twice is trimming once. */
  lemma TrimIdempotent(s: string)
    ensures Trim(Trim(s)) == Trim(s)
  {
    var r := Trim(s);
    if r != [] {
      assert LeadingSpace(r) == 0;
      assert TrailingSpace(r) == 0;
      assert r[0..] == r && r[..|r|] == r;
    }
  }

  // -------------------------------------------------------------- the form

  /** One entry of the request's input or header list. */
  datatype RequestInput = RequestInput(name: string, defaultValue: string)

  /** The request being described: its URL, HTTP method, inputs and headers. */
  class Request {
    var url: string
    var httpMethod: string
    var inputs: seq<RequestInput>
    var headers: seq<RequestInput>

    constructor()
      ensures url == "" && httpMethod == "GET" && inputs == [] && headers == []
    {
      url := "";
      httpMethod := "GET";
      inputs := [];
      headers := [];
    }
  }

  /** The add-service form. */
  class AddServices {
    const request: Request
    var currentFillingInput: string
    var currentFillingHeader: string
    var resultPhrase: string
    var resolved: string
    var testExample: Json

    /** A new form: an empty GET request and empty fields; no example response yet. */
    constructor()
      ensures fresh(request)
      ensures request.url == "" && request.httpMethod == "GET" && request.inputs == [] && request.headers == []
      ensures currentFillingInput == "" && currentFillingHeader == ""
      ensures resultPhrase == "" && resolved == "" && testExample == Undefined
    {
      request := new Request();
      currentFillingInput := "";
      currentFillingHeader := "";
      resultPhrase := "";
      resolved := "";
      testExample := Undefined;
    }

    /** `selectMethodGet` */
    method SelectMethodGet()
      modifies request
      ensures request.httpMethod == "GET"
      ensures request.url == old(request.url)
      ensures request.inputs == old(request.inputs) && request.headers == old(request.headers)
    {
      request.httpMethod := "GET";
    }

    /** `selectMethodPost` */
    method SelectMethodPost()
      modifies request
      ensures request.httpMethod == "POST"
      ensures request.url == old(request.url)
      ensures request.inputs == old(request.inputs) && request.headers == old(request.headers)
    {
      request.httpMethod := "POST";
    }

    /**
     * `addInput`: a field that trims to something becomes one more input,
     * with no default value, and the field is cleared; otherwise nothing
     * changes.
     */
    method AddInput()
      modifies this, request
      ensures var name := Trim(old(currentFillingInput));
        if name != [] then
          request.inputs == old(request.inputs) + [RequestInput(name, "")] && currentFillingInput == ""
        else
          request.inputs == old(request.inputs) && currentFillingInput == old(currentFillingInput)
      ensures request.headers == old(request.headers)
      ensures request.url == old(request.url) && request.httpMethod == old(request.httpMethod)
      ensures currentFillingHeader == old(currentFillingHeader)
      ensures resultPhrase == old(resultPhrase) && resolved == old(resolved) && testExample == old(testExample)
    {
      var input := Trim(currentFillingInput);
      if |input| > 0 {
        var newInput := RequestInput(input, "");
        currentFillingInput := "";
        request.inputs := request.inputs + [newInput];
      }
    }

    /** `addHeader`: the same as `addInput`, on the header field and list. */
    method AddHeader()
      modifies this, request
      ensures var name := Trim(old(currentFillingHeader));
        if name != [] then
          request.headers == old(request.headers) + [RequestInput(name, "")] && currentFillingHeader == ""
        else
          request.headers == old(request.headers) && currentFillingHeader == old(currentFillingHeader)
      ensures request.inputs == old(request.inputs)
      ensures request.url == old(request.url) && request.httpMethod == old(request.httpMethod)
      ensures currentFillingInput == old(currentFillingInput)
      ensures resultPhrase == old(resultPhrase) && resolved == old(resolved) && testExample == old(testExample)
    {
      var input := Trim(currentFillingHeader);
      if |input| > 0 {
        var newInput := RequestInput(input, "");
        currentFillingHeader := "";
        request.headers := request.headers + [newInput];
      }
    }

    /**
     * `addElement`, given the selector of the clicked element: its group is
     * appended to the phrase (after a space unless the phrase was empty) and
     * the phrase is resolved against the example response. A failing lookup
     * leaves `resolved` as it was.
     */
    method AddElement(selector: seq<string>) returns (r: Result<string, JsError>)
      modifies this
      ensures resultPhrase == AppendGroup(old(resultPhrase), selector)
      ensures r == Resolve(resultPhrase, testExample)
      ensures resolved == (if r.Ok? then r.value else old(resolved))
      ensures currentFillingInput == old(currentFillingInput) && currentFillingHeader == old(currentFillingHeader)
      ensures testExample == old(testExample)
    {
      var phrase := resultPhrase;
      if |phrase| > 0 {
        phrase := phrase + " ";
      }
      phrase := phrase + "{" + SelectorToString(selector) + "}";
      resultPhrase := phrase;
      r := ResolveSelectors(phrase, testExample);
      if r.Ok? {
        resolved := r.value;
      }
    }
  }

  /** The phrase after `addElement` has appended the group of `selector`. */
  function AppendGroup(phrase: string, selector: seq<string>): (r: string)
    ensures |r| > |phrase|
    ensures r[..|phrase|] == phrase
  {
    (if |phrase| > 0 then phrase + " " else phrase) + "{" + SelectorToString(selector) + "}"
  }

  /**
   * The first element added to an empty phrase resolves to the value its
   * selector picks out of the example response.
   */
  lemma FirstElementResolves(selector: seq<string>, data: Json)
    requires forall i :: 0 <= i < |selector| ==> WritablePart(selector[i])
    requires selector != [] ==> selector[|selector| - 1] != ""
    ensures Resolve(AppendGroup("", selector), data)
         == (match Select(["element"] + selector, data) case Err(e) => Err(e) case Ok(v) => Ok(JoinString(v)))
  {
    SelectorRoundTrip(selector, "");
    FirstGroup(SelectorToString(selector));
    LoneGroup(["element"] + selector, data);
  }

  lemma FirstGroup(x: string)
    ensures "" + "{" + x + "}" == "{" + x + "}" + ""
  {
  }

  /** A phrase that is one group resolves to the text of the value the group selects. */
  lemma LoneGroup(parts: seq<string>, data: Json)
    ensures Render([Group(parts)] + Scan(""), data)
         == (match Select(parts, data) case Err(e) => Err(e) case Ok(v) => Ok(JoinString(v)))
  {
    var ps := [Group(parts)] + Scan("");
    assert ps == [Group(parts)];
    assert ps[1..] == [];
    var v := Select(parts, data);
    if v.Ok? {
      assert JoinString(v.value) + "" == JoinString(v.value);
    }
  }
}
