/** The HTTP front end (`handle_request`): split the request line into
    verb and path, decode a POST body, and route (verb, path) through
    the fixed table. The raw request is the decoded text of the one read;
    JSON decoding is a parameter (`decode`) returning None on a decode
    error. */
module Server {
  import opened Prelude
  import opened Json

  datatype Request = Request(verb: string, path: string, body: Value)

  const LineBreak := "\r\n"
  const HeaderEnd := "\r\n\r\n"

  /** Method and path: the first two pieces of `lines[0].split(' ', 2)`.
      `str.split` with a separator always yields a first piece, so the
      verb is that piece (possibly empty) and the source's `'GET'`
      default never applies; the path defaults to `/` when the line has
      no space. */
  function RequestLine(raw: string): (string, string) {
    var line := SplitFirst(raw, LineBreak).0;
    var (verb, rest) := SplitFirst(line, " ");
    var path := if rest.Some? then SplitFirst(rest.value, " ").0 else "/";
    (verb, path)
  }

  /** The body is decoded only for POST requests that contain the blank
      line; everything after the first blank line is the JSON text. */
  function RequestBody(raw: string, verb: string, decode: string -> Option<Value>): Value {
    if verb == "POST" && Contains(raw, HeaderEnd) then
      var tail := SplitFirst(raw, HeaderEnd).1;
      decode(tail.value).GetOr(EmptyObject)
    else EmptyObject
  }

  function ParseRequest(raw: string, decode: string -> Option<Value>): Request {
    var (verb, path) := RequestLine(raw);
    Request(verb, path, RequestBody(raw, verb, decode))
  }

  /** A first line free of carriage returns ends at the first line
      break, and the body is everything after the blank line. */
  lemma HeaderSplit(line: string, body: string)
    requires '\r' !in line
    ensures SplitFirst(line + HeaderEnd + body, LineBreak).0 == line
    ensures Contains(line + HeaderEnd + body, HeaderEnd)
    ensures SplitFirst(line + HeaderEnd + body, HeaderEnd).1 == Some(body)
  {
    assert line + HeaderEnd + body == line + (HeaderEnd + body);
    SplitAtBoundary(line, HeaderEnd + body, LineBreak);
    SplitAtBoundary(line, HeaderEnd + body, HeaderEnd);
  }

  /** A line `verb path version` with space-free verb and path splits
      back into that verb and path. */
  lemma LineSplit(verb: string, path: string, version: string)
    requires ' ' !in verb && ' ' !in path
    ensures var (v, rest) := SplitFirst(verb + " " + path + " " + version, " ");
      && v == verb && rest.Some? && SplitFirst(rest.value, " ").0 == path
  {
    var rest := path + " " + version;
    assert verb + " " + path + " " + version == verb + (" " + path + " " + version);
    SplitAtBoundary(verb, " " + path + " " + version, " ");
    assert (" " + path + " " + version)[1..] == rest;
    assert rest == path + (" " + version);
    SplitAtBoundary(path, " " + version, " ");
  }

  /** A request whose first line is `verb path rest` followed by the
      blank line and a body parses back into that verb and path, and
      the body is the decoded tail for POST and `{}` otherwise. */
  lemma ParseRoundTrip(verb: string, path: string, version: string, body: string, decode: string -> Option<Value>)
    requires ' ' !in verb && ' ' !in path
    requires '\r' !in verb && '\r' !in path && '\r' !in version
    ensures ParseRequest(verb + " " + path + " " + version + HeaderEnd + body, decode)
         == Request(verb, path, if verb == "POST" then decode(body).GetOr(EmptyObject) else EmptyObject)
  {
    var line := verb + " " + path + " " + version;
    assert '\r' !in line;
    HeaderSplit(line, body);
    LineSplit(verb, path, version);
  }

  /** Only a POST with a blank line gets a decoded body; anything else,
      and a body that fails to decode, reads as `{}`. */
  lemma BodyOnlyForPost(raw: string, decode: string -> Option<Value>)
    ensures var r := ParseRequest(raw, decode);
      && (r.verb != "POST" ==> r.body == EmptyObject)
      && (!Contains(raw, HeaderEnd) ==> r.body == EmptyObject)
      && (r.verb == "POST" && Contains(raw, HeaderEnd) ==>
            exists pre, tail :: raw == pre + HeaderEnd + tail && !Contains(pre, HeaderEnd)
                              && r.body == decode(tail).GetOr(EmptyObject))
  {
    var r := ParseRequest(raw, decode);
    if r.verb == "POST" && Contains(raw, HeaderEnd) {
      var (pre, tail) := SplitFirst(raw, HeaderEnd);
      assert raw == pre + HeaderEnd + tail.value;
      assert !Contains(pre, HeaderEnd) by {
        forall j: nat | j + |HeaderEnd| <= |pre|
          ensures !OccursAt(pre, HeaderEnd, j)
        {
          assert raw[j..j + |HeaderEnd|] == pre[j..j + |HeaderEnd|];
          assert !OccursAt(raw, HeaderEnd, j);
        }
      }
    }
  }

  /** The request line is the part before the first line break; the verb
      holds no space, and when the line has a space the path holds none.
      A line with a space is the verb, one space, and the rest; the path
      is that rest, or the rest is the path, a space and the version. A
      line without one is all verb, and the path is `/`. */
  lemma RequestLineShape(raw: string)
    ensures var (verb, path) := RequestLine(raw);
      && ' ' !in verb
      && (Contains(SplitFirst(raw, LineBreak).0, " ") ==> ' ' !in path)
      && (!Contains(SplitFirst(raw, LineBreak).0, " ") ==> verb == SplitFirst(raw, LineBreak).0 && path == "/")
    ensures var line := SplitFirst(raw, LineBreak).0;
      var (verb, path) := RequestLine(raw);
      Contains(line, " ") ==>
        && |verb| < |line| && line == verb + " " + line[|verb| + 1..]
        && var rest := line[|verb| + 1..];
           (path == rest || (|path| < |rest| && rest == path + " " + rest[|path| + 1..]))
  {
    var line := SplitFirst(raw, LineBreak).0;
    var (verb, rest) := SplitFirst(line, " ");
    NoSpaceBeforeFirst(line);
    if rest.Some? {
      NoSpaceBeforeFirst(rest.value);
      assert line == verb + " " + rest.value;
      assert line[|verb| + 1..] == rest.value;
      var (path, version) := SplitFirst(rest.value, " ");
      if version.Some? {
        assert rest.value == path + " " + version.value;
        assert rest.value[|path| + 1..] == version.value;
      }
    }
  }

  lemma NoSpaceBeforeFirst(s: string)
    ensures ' ' !in SplitFirst(s, " ").0
  {
    var head := SplitFirst(s, " ").0;
    forall j | 0 <= j < |head|
      ensures head[j] != ' '
    {
      assert s[j] == head[j];
      assert !OccursAt(s, " ", j);
      assert s[j..j + 1] == [s[j]];
    }
  }

  // ---------------------------------------------------------------------
  // Routing
  // ---------------------------------------------------------------------

  /** What a request resolves to. `Failed` is a handler that raises on
      the body before any protocol traffic (a body that is not an object,
      a missing required key, a `text` that is not a string). */
  datatype Route =
    | Health
    | Tabs
    | TypeText(text: string, tabUrl: Option<string>, selector: Option<string>, clear: bool)
    | Click(x: Value, y: Value, tabUrl: Option<string>)
    | Eval(expression: Value, tabUrl: Option<string>)
    | Dom(tabUrl: Option<string>)
    | AxTree(tabUrl: Option<string>)
    | Agent(task: Value)
    | Locate(prompt: Value)
    | Failed
    | Unknown(error: string, endpoints: seq<string>)

  const Endpoints: seq<string> :=
    ["/health", "/tabs", "/type", "/click", "/eval", "/dom", "/axtree", "/agent", "/find"]

  /** An optional string argument as the source consumes it: a falsy value
      means absent, a non-empty string is used, anything else fails. */
  function StringArg(v: Value): Option<Option<string>> {
    if !Truthy(v) then Some(None)
    else if v.Str? then Some(Some(v.s))
    else None
  }

  /** `body.get(key)` consumed as an optional string. */
  function OptionalString(body: Value, key: string): Option<Option<string>> {
    match GetOr(body, key, Null)
    case None => None
    case Some(v) => StringArg(v)
  }

  /** `body.get('text', '').replace('\\n', '\n')`: a backslash followed by
      `n` becomes a line feed, scanning left to right. */
  function UnescapeNewlines(s: string): string {
    if |s| < 2 then s
    else if s[0] == '\\' && s[1] == 'n' then "\n" + UnescapeNewlines(s[2..])
    else [s[0]] + UnescapeNewlines(s[1..])
  }

  function TypeRoute(body: Value): Route {
    var text := GetOr(body, "text", Str(""));
    var tabUrl := OptionalString(body, "tabUrl");
    var selector := OptionalString(body, "selector");
    var clear := GetOr(body, "clear", Bool(false));
    if text.Some? && text.value.Str? && tabUrl.Some? && selector.Some? && clear.Some? then
      TypeText(UnescapeNewlines(text.value.s), tabUrl.value, selector.value, Truthy(clear.value))
    else Failed
  }

  function ClickRoute(body: Value): Route {
    var x := Index(body, "x");
    var y := Index(body, "y");
    var tabUrl := OptionalString(body, "tabUrl");
    if x.Some? && y.Some? && tabUrl.Some? then Click(x.value, y.value, tabUrl.value) else Failed
  }

  function EvalRoute(body: Value): Route {
    var expression := Index(body, "expression");
    var tabUrl := OptionalString(body, "tabUrl");
    if expression.Some? && tabUrl.Some? then Eval(expression.value, tabUrl.value) else Failed
  }

  /** The `tabUrl` of `/dom` and `/axtree`: read from the body for POST,
      absent otherwise. */
  function PageFilter(verb: string, body: Value): Option<Option<string>> {
    if verb == "POST" then OptionalString(body, "tabUrl") else Some(None)
  }

  function Dispatch(req: Request): Route {
    var (verb, path, body) := (req.verb, req.path, req.body);
    if path == "/health" then Health
    else if path == "/tabs" then Tabs
    else if path == "/type" && verb == "POST" then TypeRoute(body)
    else if path == "/click" && verb == "POST" then ClickRoute(body)
    else if path == "/eval" && verb == "POST" then EvalRoute(body)
    else if path == "/dom" then
      (match PageFilter(verb, body) case Some(f) => Dom(f) case None => Failed)
    else if path == "/axtree" then
      (match PageFilter(verb, body) case Some(f) => AxTree(f) case None => Failed)
    else if path == "/agent" && verb == "POST" then
      (match Index(body, "task") case Some(t) => Agent(t) case None => Failed)
    else if path == "/find" && verb == "POST" then
      (match Index(body, "prompt") case Some(p) => Locate(p) case None => Failed)
    else Unknown("Unknown: " + verb + " " + path, Endpoints)
  }

  /** A typing request that gives only the text types it, unescaped, into
      the default tab without focusing or clearing. */
  lemma TypeDefaults(text: string)
    ensures Dispatch(Request("POST", "/type", Obj(map["text" := Str(text)])))
         == TypeText(UnescapeNewlines(text), None, None, false)
  {
  }

  /** An optional string field of a body the handler accepts: absent,
      falsy, or a string. */
  predicate StringFieldOk(m: Fields, key: string) {
    key !in m || !Truthy(m[key]) || m[key].Str?
  }

  /** The tab or selector a body names: its non-empty string, or none. */
  function NamedIn(m: Fields, key: string): Option<string> {
    if key in m && m[key].Str? && m[key].s != "" then Some(m[key].s) else None
  }

  /** How the fields of a `/type` body become the typing route: the text
      (default empty) with its escaped newlines restored, the tab and the
      selector it names, and whether its `clear` is truthy. Any other
      body fails. */
  predicate ReadsTypeBody(m: Fields, r: Route) {
    && (r.TypeText? <==> ("text" in m ==> m["text"].Str?) && StringFieldOk(m, "tabUrl") && StringFieldOk(m, "selector"))
    && (r.TypeText? ==>
          && r.text == UnescapeNewlines(if "text" in m then m["text"].s else "")
          && r.tabUrl == NamedIn(m, "tabUrl")
          && r.selector == NamedIn(m, "selector")
          && r.clear == ("clear" in m && Truthy(m["clear"])))
    && (!r.TypeText? ==> r == Failed)
  }

  /** How the fields of a `/click` body become the click route: its `x`
      and `y` unchanged and the tab it names; a body lacking `x` or `y`
      fails. */
  predicate ReadsClickBody(m: Fields, r: Route) {
    && (r.Click? <==> "x" in m && "y" in m && StringFieldOk(m, "tabUrl"))
    && (r.Click? ==> r.x == m["x"] && r.y == m["y"] && r.tabUrl == NamedIn(m, "tabUrl"))
    && (!r.Click? ==> r == Failed)
  }

  /** A `/type` POST passes its body's fields to the typing handler. */
  lemma TypeReadsBody(m: Fields)
    ensures ReadsTypeBody(m, Dispatch(Request("POST", "/type", Obj(m))))
  {
  }

  /** A `/click` POST passes its body's fields to the click handler. */
  lemma ClickReadsBody(m: Fields)
    ensures ReadsClickBody(m, Dispatch(Request("POST", "/click", Obj(m))))
  {
  }

  /** A body that is not a JSON object makes every POST-only handler but
      the unknown-path reply fail, and `/dom` and `/axtree` too. */
  lemma NonObjectBodyFails(path: string, body: Value)
    requires !body.Obj?
    requires path in ["/type", "/click", "/eval", "/dom", "/axtree", "/agent", "/find"]
    ensures Dispatch(Request("POST", path, body)) == Failed
  {
  }

  // ---------------------------------------------------------------------
  // The routing table as data, and what the dispatcher promises about it
  // ---------------------------------------------------------------------

  datatype Methods = AnyMethod | PostOnly

  /** The handler a table row names. */
  datatype Handler =
    | HealthHandler | TabsHandler | TypeHandler | ClickHandler | EvalHandler
    | DomHandler | AxTreeHandler | AgentHandler | FindHandler

  /** The routes a handler resolves to when its body is usable. */
  predicate Serves(h: Handler, r: Route) {
    match h
    case HealthHandler => r.Health?
    case TabsHandler => r.Tabs?
    case TypeHandler => r.TypeText?
    case ClickHandler => r.Click?
    case EvalHandler => r.Eval?
    case DomHandler => r.Dom?
    case AxTreeHandler => r.AxTree?
    case AgentHandler => r.Agent?
    case FindHandler => r.Locate?
  }

  const RoutingTable: seq<(string, Methods, Handler)> := [
    ("/health", AnyMethod, HealthHandler), ("/tabs", AnyMethod, TabsHandler),
    ("/type", PostOnly, TypeHandler), ("/click", PostOnly, ClickHandler),
    ("/eval", PostOnly, EvalHandler), ("/dom", AnyMethod, DomHandler),
    ("/axtree", AnyMethod, AxTreeHandler), ("/agent", PostOnly, AgentHandler),
    ("/find", PostOnly, FindHandler)]

  predicate Routable(verb: string, path: string) {
    exists i :: 0 <= i < |RoutingTable| && RoutingTable[i].0 == path
                && (RoutingTable[i].1 == AnyMethod || verb == "POST")
  }

  /** A request falls through to the error body exactly when the table has
      no entry for its (verb, path); the error names both and lists the
      nine endpoints. */
  lemma UnknownIffNotRoutable(req: Request)
    ensures Dispatch(req).Unknown? <==> !Routable(req.verb, req.path)
    ensures Dispatch(req).Unknown? ==>
      Dispatch(req) == Unknown("Unknown: " + req.verb + " " + req.path, Endpoints)
  {
    if !Dispatch(req).Unknown? {
      var i :| 0 <= i < |RoutingTable| && RoutingTable[i].0 == req.path by {
        var p := req.path;
        if p == "/health" { assert RoutingTable[0].0 == p; }
        else if p == "/tabs" { assert RoutingTable[1].0 == p; }
        else if p == "/type" { assert RoutingTable[2].0 == p; }
        else if p == "/click" { assert RoutingTable[3].0 == p; }
        else if p == "/eval" { assert RoutingTable[4].0 == p; }
        else if p == "/dom" { assert RoutingTable[5].0 == p; }
        else if p == "/axtree" { assert RoutingTable[6].0 == p; }
        else if p == "/agent" { assert RoutingTable[7].0 == p; }
        else { assert RoutingTable[8].0 == p; }
      }
    }
  }

  /** A request that matches row `i` of the table reaches that row's
      handler, which either resolves it or fails on its body; the health
      and tab-listing handlers never fail. */
  lemma DispatchFollowsTable(req: Request, i: nat)
    requires i < |RoutingTable| && RoutingTable[i].0 == req.path
    requires RoutingTable[i].1 == AnyMethod || req.verb == "POST"
    ensures Serves(RoutingTable[i].2, Dispatch(req)) || Dispatch(req).Failed?
    ensures RoutingTable[i].2.HealthHandler? || RoutingTable[i].2.TabsHandler? ==> Serves(RoutingTable[i].2, Dispatch(req))
  {
    if i == 0 { assert RoutingTable[0] == ("/health", AnyMethod, HealthHandler); }
    else if i == 1 { assert RoutingTable[1] == ("/tabs", AnyMethod, TabsHandler); }
    else if i == 2 { assert RoutingTable[2] == ("/type", PostOnly, TypeHandler); }
    else if i == 3 { assert RoutingTable[3] == ("/click", PostOnly, ClickHandler); }
    else if i == 4 { assert RoutingTable[4] == ("/eval", PostOnly, EvalHandler); }
    else if i == 5 { assert RoutingTable[5] == ("/dom", AnyMethod, DomHandler); }
    else if i == 6 { assert RoutingTable[6] == ("/axtree", AnyMethod, AxTreeHandler); }
    else if i == 7 { assert RoutingTable[7] == ("/agent", PostOnly, AgentHandler); }
    else { assert RoutingTable[8] == ("/find", PostOnly, FindHandler); }
  }

  /** The advertised endpoints are exactly the paths of the table, in
      table order, so every path that routes for some verb is listed. */
  lemma EndpointsAreTablePaths()
    ensures |Endpoints| == |RoutingTable|
    ensures forall i :: 0 <= i < |Endpoints| ==> Endpoints[i] == RoutingTable[i].0
    ensures forall p :: p in Endpoints <==> Routable("POST", p)
  {
    forall p | Routable("POST", p)
      ensures p in Endpoints
    {
      var i :| 0 <= i < |RoutingTable| && RoutingTable[i].0 == p;
      assert Endpoints[i] == p;
    }
  }

  /** The POST test of `/dom` and `/axtree` changes nothing:
      a body is only ever decoded for POST, so the filter read from the
      body is absent for every other verb anyway. */
  lemma PageFilterFromBodyAlone(raw: string, decode: string -> Option<Value>)
    ensures var r := ParseRequest(raw, decode);
      PageFilter(r.verb, r.body) == OptionalString(r.body, "tabUrl")
  {
  }

  /** An escaped newline in the `/type` text becomes a line feed, and the
      text handed to the keyboard never holds a backslash followed by `n`. */
  predicate NoEscapedNewline(s: string) {
    forall i :: 0 <= i < |s| - 1 ==> !(s[i] == '\\' && s[i + 1] == 'n')
  }

  /** Writes each line feed as a backslash and `n`. */
  function EscapeNewlines(s: string): string {
    if |s| == 0 then "" else (if s[0] == '\n' then "\\n" else [s[0]]) + EscapeNewlines(s[1..])
  }

  lemma {:induction false} UnescapeHead(s: string)
    requires |s| > 0
    ensures |UnescapeNewlines(s)| > 0
    ensures UnescapeNewlines(s)[0] == (if |s| >= 2 && s[0] == '\\' && s[1] == 'n' then '\n' else s[0])
  {
  }

  lemma {:induction false} UnescapeLeavesNoEscape(s: string)
    ensures NoEscapedNewline(UnescapeNewlines(s))
    decreases |s|
  {
    if |s| >= 2 {
      if s[0] == '\\' && s[1] == 'n' {
        UnescapeLeavesNoEscape(s[2..]);
        var r := UnescapeNewlines(s[2..]);
        assert UnescapeNewlines(s) == "\n" + r;
        assert forall i :: 1 <= i < |r| ==> ("\n" + r)[i] == r[i - 1];
      } else {
        UnescapeLeavesNoEscape(s[1..]);
        var r := UnescapeNewlines(s[1..]);
        assert UnescapeNewlines(s) == [s[0]] + r;
        UnescapeHead(s[1..]);
        assert forall i :: 1 <= i < |r| ==> ([s[0]] + r)[i] == r[i - 1];
      }
    }
  }

  /** Unescaping inverts escaping on every text that has no backslash
      directly before an `n`. */
  lemma {:induction false} UnescapeInvertsEscape(s: string)
    requires NoEscapedNewline(s)
    ensures UnescapeNewlines(EscapeNewlines(s)) == s
    decreases |s|
  {
    if |s| > 0 {
      var rest := EscapeNewlines(s[1..]);
      assert NoEscapedNewline(s[1..]) by {
        forall i | 0 <= i < |s[1..]| - 1
          ensures !(s[1..][i] == '\\' && s[1..][i + 1] == 'n')
        {
          assert s[1..][i] == s[i + 1] && s[1..][i + 1] == s[i + 2];
        }
      }
      UnescapeInvertsEscape(s[1..]);
      if s[0] == '\n' {
        assert EscapeNewlines(s) == "\\n" + rest;
        assert ("\\n" + rest)[2..] == rest;
      } else if s[0] == '\\' {
        assert EscapeNewlines(s) == [s[0]] + rest;
        if |rest| > 0 {
          assert |s| > 1;
          EscapeHead(s[1..]);
          assert rest[0] != 'n';
        } else {
          assert |s[1..]| == 0;
        }
        assert ([s[0]] + rest)[1..] == rest;
      } else {
        assert EscapeNewlines(s) == [s[0]] + rest;
        assert ([s[0]] + rest)[1..] == rest;
      }
    }
  }

  lemma {:induction false} EscapeHead(s: string)
    requires |s| > 0
    ensures |EscapeNewlines(s)| > 0
    ensures EscapeNewlines(s)[0] == (if s[0] == '\n' then '\\' else s[0])
  {
  }
}
