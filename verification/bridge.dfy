/** The bridge's operations end to end: choose a tab, connect, write the
    trace's commands one at a time over the connection, and answer the
    HTTP request. The target listing, the message stream the connection
    delivers and the command ids are parameters. */
module Bridge {
  import opened Prelude
  import opened Json
  import opened Targets
  import opened Input
  import Session
  import Server

  /** The id given to the k-th command written on a connection. */
  type IdSource = nat -> int

  function IdsFor(ids: IdSource, n: nat): seq<int> {
    seq(n, k requires 0 <= k < n => ids(k))
  }

  /** Why an operation raised: selection failed before connecting, the
      browser answered a command with an error, or the connection closed
      while a command was outstanding. */
  datatype Failure =
    | SelectFailed(reason: SelectError)
    | ProtocolError(error: Value)
    | ConnectionClosed

  /** The commands an operation wrote, and what it returned or raised. */
  datatype Run<+T> = Run(sent: seq<Session.Message>, result: Result<T, Failure>)

  /** Command `k` of `steps` is reached on `stream`: every command before
      it was answered with a result, in turn. */
  predicate Reached(steps: seq<Step>, ids: IdSource, stream: seq<Session.Message>, k: nat) {
    k <= |Calls(steps)| && Session.Turns(IdsFor(ids, |Calls(steps)|), stream, k).Some?
  }

  /** What a reached command `k` of `steps` receives. */
  function Received(steps: seq<Step>, ids: IdSource, stream: seq<Session.Message>, k: nat): Session.Awaited
    requires k < |Calls(steps)| && Reached(steps, ids, stream, k)
  {
    Session.Turn(IdsFor(ids, |Calls(steps)|), stream, k)
  }

  /** A failure is explained by what the command it stopped at received:
      a protocol error by that error, a closed connection by no answer. */
  predicate Explains(f: Failure, a: Session.Awaited) {
    match f
    case ProtocolError(e) => a.Answered? && a.reply == Session.Raised(e)
    case ConnectionClosed => a.Closed?
    case SelectFailed(_) => false
  }

  /** A run that wrote `sent` stopped with `f` at its last written command,
      every earlier command having been answered with a result. */
  predicate Stopped(steps: seq<Step>, ids: IdSource, stream: seq<Session.Message>, sent: seq<Session.Message>, f: Failure) {
    && 1 <= |sent| <= |Calls(steps)|
    && Reached(steps, ids, stream, |sent| - 1)
    && Explains(f, Received(steps, ids, stream, |sent| - 1))
  }

  /** Select a target, then write the commands of `steps` in order, each
      awaiting its answer; succeeds with the tab's url. */
  function Drive(targets: seq<Target>, filter: Option<string>, steps: seq<Step>,
                 ids: IdSource, stream: seq<Session.Message>): (r: Run<string>)
    ensures SelectTarget(targets, filter).Err? ==> r == Run([], Err(SelectFailed(SelectTarget(targets, filter).error)))
    ensures |r.sent| <= |Calls(steps)|
    ensures forall k :: 0 <= k < |r.sent| ==> r.sent[k] == Session.Encode(Calls(steps)[k], ids(k))
    ensures r.result.Ok? ==> && SelectTarget(targets, filter).Ok?
                             && r.result.value == SelectTarget(targets, filter).value.url
                             && |r.sent| == |Calls(steps)|
    ensures r.result.Err? && !r.result.error.SelectFailed? ==> SelectTarget(targets, filter).Ok? && 1 <= |r.sent|
  {
    match SelectTarget(targets, filter)
    case Err(e) => Run([], Err(SelectFailed(e)))
    case Ok(endpoint) =>
      var calls := Calls(steps);
      Finish(Session.SendAll(calls, IdsFor(ids, |calls|), stream), endpoint.url)
  }

  /** The operation's result once connected: the tab's url when every
      command completed, else the failure that stopped the run. */
  function Finish(x: Session.Exchange, url: string): Run<string> {
    var result :=
      match x.outcome
      case Completed(_, _) => Ok(url)
      case Failed(e) => Err(ProtocolError(e))
      case Disconnected => Err(ConnectionClosed);
    Run(x.sent, result)
  }

  /** A run that takes turns succeeds exactly when every command is
      answered with a result in turn, and otherwise stops at the command
      whose answer explains the failure. */
  lemma FinishTakesTurns(steps: seq<Step>, ids: IdSource, stream: seq<Session.Message>, x: Session.Exchange, url: string)
    requires Session.TakesTurns(IdsFor(ids, |Calls(steps)|), stream, x)
    ensures Finish(x, url).result.Ok? <==> Reached(steps, ids, stream, |Calls(steps)|)
    ensures Finish(x, url).result.Err? ==> Stopped(steps, ids, stream, x.sent, Finish(x, url).result.error)
  {
  }

  /** Once a tab is selected, the operation succeeds exactly when every
      command is answered with a result in turn. Otherwise it stops at the
      last command it wrote, after every earlier command was answered with
      a result: a protocol error is the error that command received, and a
      closed connection means it was never answered. */
  lemma DriveTakesTurns(targets: seq<Target>, filter: Option<string>, steps: seq<Step>,
                        ids: IdSource, stream: seq<Session.Message>)
    ensures Drive(targets, filter, steps, ids, stream).result.Ok?
        <==> SelectTarget(targets, filter).Ok? && Reached(steps, ids, stream, |Calls(steps)|)
    ensures Drive(targets, filter, steps, ids, stream).result.Err? && SelectTarget(targets, filter).Ok? ==>
      Stopped(steps, ids, stream, Drive(targets, filter, steps, ids, stream).sent, Drive(targets, filter, steps, ids, stream).result.error)
  {
    if SelectTarget(targets, filter).Ok? {
      var calls := Calls(steps);
      var url := SelectTarget(targets, filter).value.url;
      var x := Session.SendAll(calls, IdsFor(ids, |calls|), stream);
      assert Drive(targets, filter, steps, ids, stream) == Finish(x, url);
      Session.SendAllTakesTurns(calls, IdsFor(ids, |calls|), stream);
      FinishTakesTurns(steps, ids, stream, x, url);
    }
  }

  /** `cdp_type`'s return value. */
  datatype Typed = Typed(chars: nat, tab: string)

  /** `cdp_type`: focus, clear, then one key triplet per character. */
  function TypeText(targets: seq<Target>, filter: Option<string>, text: string, selector: Option<string>,
                    clear: bool, ids: IdSource, stream: seq<Session.Message>): (r: Run<Typed>)
    ensures r.result.Ok? ==> r.result.value.chars == |text|
    ensures r.result.Ok? ==> SelectTarget(targets, filter).Ok? && r.result.value.tab == SelectTarget(targets, filter).value.url
    ensures r.result.Ok? ==> |r.sent| == |Calls(TypeTrace(text, selector, clear))|
    ensures |r.sent| <= |Calls(TypeTrace(text, selector, clear))|
    ensures forall k :: 0 <= k < |r.sent| ==> r.sent[k] == Session.Encode(Calls(TypeTrace(text, selector, clear))[k], ids(k))
    ensures SelectTarget(targets, filter).Err? ==> r.sent == [] && r.result == Err(SelectFailed(SelectTarget(targets, filter).error))
  {
    var run := Drive(targets, filter, TypeTrace(text, selector, clear), ids, stream);
    match run.result
    case Ok(url) => Run(run.sent, Ok(Typed(CharsTyped(text), url)))
    case Err(f) => Run(run.sent, Err(f))
  }

  /** `cdp_click`: press and release at one point; returns the point. */
  function ClickAt(targets: seq<Target>, filter: Option<string>, x: Value, y: Value,
                   ids: IdSource, stream: seq<Session.Message>): (r: Run<(Value, Value)>)
    ensures r.result.Ok? ==> r.result.value == (x, y) && |r.sent| == 2
    ensures |r.sent| <= 2
    ensures |r.sent| >= 1 ==>
      r.sent[0] == Session.Encode(Session.Call("Input.dispatchMouseEvent", MouseParams(MousePressed, x, y), None), ids(0))
    ensures |r.sent| == 2 ==>
      r.sent[1] == Session.Encode(Session.Call("Input.dispatchMouseEvent", MouseParams(MouseReleased, x, y), None), ids(1))
    ensures SelectTarget(targets, filter).Err? ==> r.sent == [] && r.result == Err(SelectFailed(SelectTarget(targets, filter).error))
  {
    ClickCalls(x, y);
    var run := Drive(targets, filter, ClickTrace(x, y), ids, stream);
    match run.result
    case Ok(_) => Run(run.sent, Ok((x, y)))
    case Err(f) => Run(run.sent, Err(f))
  }

  /** Typing writes what driving its trace writes, succeeds exactly when
      every command of the trace is answered with a result in turn, and
      otherwise stops at the command whose answer explains the failure. */
  lemma TypeTextTakesTurns(targets: seq<Target>, filter: Option<string>, text: string, selector: Option<string>,
                           clear: bool, ids: IdSource, stream: seq<Session.Message>)
    ensures var r := TypeText(targets, filter, text, selector, clear, ids, stream);
      && r.sent == Drive(targets, filter, TypeTrace(text, selector, clear), ids, stream).sent
      && (r.result.Ok? <==> SelectTarget(targets, filter).Ok?
                            && Reached(TypeTrace(text, selector, clear), ids, stream, |Calls(TypeTrace(text, selector, clear))|))
      && (r.result.Err? && SelectTarget(targets, filter).Ok? ==>
            Stopped(TypeTrace(text, selector, clear), ids, stream, r.sent, r.result.error))
  {
    DriveTakesTurns(targets, filter, TypeTrace(text, selector, clear), ids, stream);
  }

  /** Clicking succeeds exactly when both mouse events are answered with a
      result in turn, and otherwise stops at the event whose answer
      explains the failure. */
  lemma ClickAtTakesTurns(targets: seq<Target>, filter: Option<string>, x: Value, y: Value,
                          ids: IdSource, stream: seq<Session.Message>)
    ensures var r := ClickAt(targets, filter, x, y, ids, stream);
      && r.sent == Drive(targets, filter, ClickTrace(x, y), ids, stream).sent
      && (r.result.Ok? <==> SelectTarget(targets, filter).Ok? && Reached(ClickTrace(x, y), ids, stream, 2))
      && (r.result.Err? && SelectTarget(targets, filter).Ok? ==> Stopped(ClickTrace(x, y), ids, stream, r.sent, r.result.error))
  {
    ClickCalls(x, y);
    DriveTakesTurns(targets, filter, ClickTrace(x, y), ids, stream);
  }

  // ---------------------------------------------------------------------
  // What a connection does under a cooperative or a failing browser
  // ---------------------------------------------------------------------

  /** The encoded commands of `steps`, with their ids. */
  function Encoded(steps: seq<Step>, ids: IdSource): seq<Session.Message> {
    var calls := Calls(steps);
    seq(|calls|, k requires 0 <= k < |calls| => Session.Encode(calls[k], ids(k)))
  }

  /** When the browser answers every command in turn, every command is
      written and the operation succeeds with the selected tab's url. */
  lemma DriveCompletes(targets: seq<Target>, filter: Option<string>, steps: seq<Step>,
                       ids: IdSource, results: seq<Value>)
    requires SelectTarget(targets, filter).Ok?
    requires |results| == |Calls(steps)|
    ensures Drive(targets, filter, steps, ids, Session.PromptAnswers(IdsFor(ids, |results|), results))
         == Run(Encoded(steps, ids), Ok(SelectTarget(targets, filter).value.url))
  {
    var calls := Calls(steps);
    var idSeq := IdsFor(ids, |calls|);
    Session.PromptAnswersComplete(calls, idSeq, results);
    var x := Session.SendAll(calls, idSeq, Session.PromptAnswers(idSeq, results));
    var url := SelectTarget(targets, filter).value.url;
    WrittenPrefix(steps, ids, x, url);
    assert Encoded(steps, ids)[..|calls|] == Encoded(steps, ids);
    assert Drive(targets, filter, steps, ids, Session.PromptAnswers(idSeq, results)) == Finish(x, url);
  }

  /** The first `k` of `n` ids are the ids of a run of `k` commands. */
  lemma IdsForPrefix(ids: IdSource, n: nat, k: nat)
    requires k <= n
    ensures IdsFor(ids, n)[..k] == IdsFor(ids, k)
  {
  }

  /** A run that wrote commands of `steps` in order wrote a prefix of the
      encoded commands. */
  lemma WrittenPrefix(steps: seq<Step>, ids: IdSource, x: Session.Exchange, url: string)
    requires |x.sent| <= |Calls(steps)|
    requires forall j :: 0 <= j < |x.sent| ==> x.sent[j] == Session.Encode(Calls(steps)[j], IdsFor(ids, |Calls(steps)|)[j])
    ensures Finish(x, url).sent == Encoded(steps, ids)[..|x.sent|]
  {
  }

  /** An error answer to command `k`, after commands `0 .. k-1` were each
      answered with a result, ends the operation there with that error:
      commands `0 .. k` are written and nothing after them. */
  lemma ErrorAnswerStops(targets: seq<Target>, filter: Option<string>, steps: seq<Step>,
                         ids: IdSource, rs: seq<Value>, e: Value, later: seq<Session.Message>)
    requires SelectTarget(targets, filter).Ok?
    requires |rs| < |Calls(steps)|
    ensures Drive(targets, filter, steps, ids,
                  Session.PromptAnswers(IdsFor(ids, |rs|), rs) + [Session.ErrorFor(ids(|rs|), e)] + later)
         == Run(Encoded(steps, ids)[..|rs| + 1], Err(ProtocolError(e)))
  {
    var calls := Calls(steps);
    var idSeq := IdsFor(ids, |calls|);
    var stream := Session.PromptAnswers(IdsFor(ids, |rs|), rs) + [Session.ErrorFor(ids(|rs|), e)] + later;
    IdsForPrefix(ids, |calls|, |rs|);
    assert stream == Session.PromptAnswers(idSeq[..|rs|], rs) + [Session.ErrorFor(idSeq[|rs|], e)] + later;
    var x := Session.SendAll(calls, idSeq, stream);
    Session.ErrorAnswerStopsAt(calls, idSeq, rs, e, later);
    WrittenPrefix(steps, ids, x, SelectTarget(targets, filter).value.url);
    assert Drive(targets, filter, steps, ids, stream) == Finish(x, SelectTarget(targets, filter).value.url);
  }

  /** If nothing after the answers to commands `0 .. k-1` answers command
      `k`, the operation fails as closed after writing commands `0 .. k`. */
  lemma UnansweredCommandCloses(targets: seq<Target>, filter: Option<string>, steps: seq<Step>,
                                ids: IdSource, rs: seq<Value>, later: seq<Session.Message>)
    requires SelectTarget(targets, filter).Ok?
    requires |rs| < |Calls(steps)|
    requires forall j :: 0 <= j < |later| ==> !Session.Answers(later[j], ids(|rs|))
    ensures Drive(targets, filter, steps, ids, Session.PromptAnswers(IdsFor(ids, |rs|), rs) + later)
         == Run(Encoded(steps, ids)[..|rs| + 1], Err(ConnectionClosed))
  {
    var calls := Calls(steps);
    var idSeq := IdsFor(ids, |calls|);
    var stream := Session.PromptAnswers(IdsFor(ids, |rs|), rs) + later;
    IdsForPrefix(ids, |calls|, |rs|);
    assert stream == Session.PromptAnswers(idSeq[..|rs|], rs) + later;
    assert idSeq[|rs|] == ids(|rs|);
    var x := Session.SendAll(calls, idSeq, stream);
    Session.UnansweredClosesAt(calls, idSeq, rs, later);
    WrittenPrefix(steps, ids, x, SelectTarget(targets, filter).value.url);
    assert Drive(targets, filter, steps, ids, stream) == Finish(x, SelectTarget(targets, filter).value.url);
  }

  /** Typing succeeds on a cooperative browser, reporting one character per
      character of the text and the tab it chose; focus, clearing and the
      text's key triplets are all written. */
  lemma TypeTextCompletes(targets: seq<Target>, filter: Option<string>, text: string, selector: Option<string>,
                          clear: bool, ids: IdSource, results: seq<Value>)
    requires SelectTarget(targets, filter).Ok?
    requires |results| == |FocusCalls(selector)| + ClearCount(clear) + 3 * |text|
    ensures var r := TypeText(targets, filter, text, selector, clear, ids,
                              Session.PromptAnswers(IdsFor(ids, |results|), results));
      && r.result == Ok(Typed(|text|, SelectTarget(targets, filter).value.url))
      && r.sent == Encoded(TypeTrace(text, selector, clear), ids)
  {
    TypeTraceCalls(text, selector, clear);
    DriveCompletes(targets, filter, TypeTrace(text, selector, clear), ids, results);
  }

  /** Empty text with no selector and no clearing writes nothing and, once
      a tab is selected, succeeds with zero characters whatever the
      connection delivers. */
  lemma NothingToType(targets: seq<Target>, filter: Option<string>, ids: IdSource, stream: seq<Session.Message>)
    ensures TypeText(targets, filter, "", None, false, ids, stream).sent == []
    ensures TypeText(targets, filter, "", None, false, ids, stream).result.Ok? <==> SelectTarget(targets, filter).Ok?
    ensures SelectTarget(targets, filter).Ok? ==>
      TypeText(targets, filter, "", None, false, ids, stream).result == Ok(Typed(0, SelectTarget(targets, filter).value.url))
  {
    TypeTraceCalls("", None, false);
  }

  const HiTab := Target(Some("page"), Some("https://a.test/"), None, Some("ws://b/1"))

  /** Typing "Hi" and a line feed writes three key triplets. */
  lemma HiCalls()
    ensures |Calls(TypeTrace("Hi\n", None, false))| == 9
    ensures Calls(TypeTrace("Hi\n", None, false))[7] == KeyCall(SpecialEvent('\n', Char))
  {
    var text := "Hi\n";
    TypeTraceCalls(text, None, false);
    CharTraceCalls(text);
    assert Calls(CharTrace(text))[3 * 2 + 1] == KeyCall(KeyEvents(text[2])[1]);
  }

  /** The line feed is entered as a carriage return. */
  lemma HiEntersReturn()
    ensures CharText(TypeTrace("Hi\n", None, false)) == "Hi\r"
  {
    var text := "Hi\n";
    TypeTraceEntersText(text, None, false);
    var entered := seq(|text|, i requires 0 <= i < |text| => Entered(text[i]));
    assert entered[0] == 'H' && entered[1] == 'i' && entered[2] == '\r';
    assert entered == "Hi\r";
  }

  /** The trace ends with the 50 ms pause of a special key. */
  lemma HiEndsWithPause()
    ensures |TypeTrace("Hi\n", None, false)| == 12
    ensures TypeTrace("Hi\n", None, false)[11] == Sleep(50)
  {
    var text := "Hi\n";
    assert TypeTrace(text, None, false) == CharTrace(text);
    CharTraceBlocks(text);
    assert CharTrace(text)[4 * 2 + 3] == KeyTrace(text[2])[3];
  }

  /** The only tab of the listing is selected when no filter is given. */
  lemma HiTabSelected()
    ensures SelectTarget([HiTab], None) == Ok(Endpoint("ws://b/1", "https://a.test/"))
  {
    assert Pages([HiTab]) == [HiTab] by {
      assert [HiTab][1..] == [];
    }
  }

  /** Typing "Hi" and a line feed into the only tab of a cooperative
      browser writes nine commands and reports three characters. */
  lemma TypeHiScenario(ids: IdSource, results: seq<Value>)
    requires |results| == 9
    ensures var r := TypeText([HiTab], None, "Hi\n", None, false, ids, Session.PromptAnswers(IdsFor(ids, 9), results));
      && r.result == Ok(Typed(3, "https://a.test/"))
      && |r.sent| == 9
      && r.sent[7] == Session.Encode(KeyCall(SpecialEvent('\n', Char)), ids(7))
  {
    HiTabSelected();
    HiCalls();
    TypeTextCompletes([HiTab], None, "Hi\n", None, false, ids, results);
  }

  // ---------------------------------------------------------------------
  // The HTTP handler
  // ---------------------------------------------------------------------

  /** An entry of the `/tabs` listing; a missing field reads "". */
  datatype Tab = Tab(title: string, url: string)

  function TabOf(t: Target): Tab {
    Tab(t.title.GetOr(""), t.url.GetOr(""))
  }

  /** The entry a target contributes to the listing: one for a page,
      none otherwise. */
  function TabEntry(t: Target): seq<Tab> {
    if IsPage(t) then [TabOf(t)] else []
  }

  /** The `/tabs` comprehension over the targets, pages only. */
  function TabListing(targets: seq<Target>): seq<Tab> {
    FlatMap(targets, TabEntry)
  }

  /** The listing has one entry per page target, in the order the targets
      are listed, each with that page's title and url ("" when absent). */
  lemma {:induction false} TabsArePages(targets: seq<Target>)
    ensures |TabListing(targets)| == |Pages(targets)|
    ensures forall k :: 0 <= k < |TabListing(targets)| ==> TabListing(targets)[k] == TabOf(Pages(targets)[k])
  {
    if |targets| > 0 {
      var t := targets[0];
      var rest := targets[1..];
      TabsArePages(rest);
      assert Pages(targets) == (if IsPage(t) then [t] else []) + Pages(rest);
      assert TabListing(targets) == TabEntry(t) + TabListing(rest);
      if IsPage(t) {
        forall k | 1 <= k < |TabListing(targets)|
          ensures TabListing(targets)[k] == TabOf(Pages(targets)[k])
        {
          assert TabListing(targets)[k] == TabListing(rest)[k - 1];
          assert Pages(targets)[k] == Pages(rest)[k - 1];
        }
      }
    }
  }

  /** Without a filter, the tab an operation drives is the first tab the
      listing shows, and it has one exactly when the listing is not
      empty. */
  lemma DefaultTargetIsFirstListed(targets: seq<Target>)
    ensures SelectTarget(targets, None) == Err(NoPageTargets) <==> |TabListing(targets)| == 0
    ensures SelectTarget(targets, None).Ok? ==>
      SelectTarget(targets, None).value.url == TabListing(targets)[0].url
      || (TabListing(targets)[0].url == "" && SelectTarget(targets, None).value.url == "unknown")
  {
    TabsArePages(targets);
  }

  /** The JSON body the handler answers with. */
  datatype Response =
    | HealthResponse
    | TabsResponse(tabs: seq<Tab>)
    | TypedResponse(chars: nat, tab: string)
    | ClickedResponse(x: Value, y: Value)
    | ErrorResponse(failure: Failure)
    | MalformedBody
    | UnknownResponse(error: string, endpoints: seq<string>)

  /** A handled request: the commands written and the response, or a route
      whose browser traffic lies outside this model. */
  datatype Handled =
    | Done(sent: seq<Session.Message>, response: Response)
    | Delegated(route: Server.Route)

  function Respond<T>(run: Run<T>, ok: T -> Response): Handled {
    match run.result
    case Ok(v) => Done(run.sent, ok(v))
    case Err(f) => Done(run.sent, ErrorResponse(f))
  }

  /** `handle_request` after parsing: route, run the operation, answer. */
  function Handle(req: Server.Request, targets: seq<Target>, ids: IdSource, stream: seq<Session.Message>): (h: Handled)
    ensures h.Done? && h.response.UnknownResponse? ==> h.sent == [] && h.response.endpoints == Server.Endpoints
    ensures h.Done? && h.response.MalformedBody? ==> h.sent == []
    ensures h.Delegated? ==> h.route.Eval? || h.route.Dom? || h.route.AxTree? || h.route.Agent? || h.route.Locate?
  {
    match Server.Dispatch(req)
    case Health => Done([], HealthResponse)
    case Tabs => Done([], TabsResponse(TabListing(targets)))
    case TypeText(text, tabUrl, selector, clear) =>
      Respond(TypeText(targets, tabUrl, text, selector, clear, ids, stream), (t: Typed) => TypedResponse(t.chars, t.tab))
    case Click(x, y, tabUrl) =>
      Respond(ClickAt(targets, tabUrl, x, y, ids, stream), (p: (Value, Value)) => ClickedResponse(p.0, p.1))
    case Failed => Done([], MalformedBody)
    case Unknown(error, endpoints) => Done([], UnknownResponse(error, endpoints))
    case other => Delegated(other)
  }

  /** `/health` answers for every method and body without touching the
      browser. */
  lemma HealthNeverConnects(verb: string, body: Value, targets: seq<Target>, ids: IdSource, stream: seq<Session.Message>)
    ensures Handle(Server.Request(verb, "/health", body), targets, ids, stream) == Done([], HealthResponse)
  {
  }

  /** `/tabs` answers for every method and body with the listing of the
      page targets, without touching the browser. */
  lemma TabsNeverConnects(verb: string, body: Value, targets: seq<Target>, ids: IdSource, stream: seq<Session.Message>)
    ensures Handle(Server.Request(verb, "/tabs", body), targets, ids, stream) == Done([], TabsResponse(TabListing(targets)))
  {
  }

  /** A POST to `/type` either fails on its body before anything is
      written, or types its text into the tab it names: it reports every
      character of the text and the selected tab's url, or the failure
      that stopped the typing, with exactly the commands the typing wrote. */
  lemma TypeRequestTypes(body: Value, targets: seq<Target>, ids: IdSource, stream: seq<Session.Message>)
    ensures var h := Handle(Server.Request("POST", "/type", body), targets, ids, stream);
      match Server.Dispatch(Server.Request("POST", "/type", body))
      case TypeText(text, tabUrl, selector, clear) =>
        var r := TypeText(targets, tabUrl, text, selector, clear, ids, stream);
        h == Done(r.sent, if r.result.Ok? then TypedResponse(|text|, SelectTarget(targets, tabUrl).value.url)
                          else ErrorResponse(r.result.error))
      case _ => h == Done([], MalformedBody)
  {
  }

  /** A POST to `/click` either fails on its body before anything is
      written, or clicks at the point it gives: it echoes that point, or
      reports the failure that stopped the click, with exactly the
      commands the click wrote. */
  lemma ClickRequestClicks(body: Value, targets: seq<Target>, ids: IdSource, stream: seq<Session.Message>)
    ensures var h := Handle(Server.Request("POST", "/click", body), targets, ids, stream);
      match Server.Dispatch(Server.Request("POST", "/click", body))
      case Click(x, y, tabUrl) =>
        var r := ClickAt(targets, tabUrl, x, y, ids, stream);
        h == Done(r.sent, if r.result.Ok? then ClickedResponse(x, y) else ErrorResponse(r.result.error))
      case _ => h == Done([], MalformedBody)
  {
  }

  /** A POST to `/type` with an object body types the body's text, with
      its escaped newlines restored, into the tab the body names, focusing
      the element its selector names and clearing when its `clear` is
      truthy; a `text` that is not a string, or a tab or selector that is
      neither falsy nor a string, fails before anything is written. */
  lemma TypeRequestReadsBody(m: Fields, targets: seq<Target>, ids: IdSource, stream: seq<Session.Message>)
    ensures var h := Handle(Server.Request("POST", "/type", Obj(m)), targets, ids, stream);
      if ("text" in m ==> m["text"].Str?) && Server.StringFieldOk(m, "tabUrl") && Server.StringFieldOk(m, "selector") then
        var text := Server.UnescapeNewlines(if "text" in m then m["text"].s else "");
        var tab := Server.NamedIn(m, "tabUrl");
        var r := TypeText(targets, tab, text, Server.NamedIn(m, "selector"), "clear" in m && Truthy(m["clear"]), ids, stream);
        h == Done(r.sent, if r.result.Ok? then TypedResponse(|text|, SelectTarget(targets, tab).value.url)
                          else ErrorResponse(r.result.error))
      else h == Done([], MalformedBody)
  {
    Server.TypeReadsBody(m);
    TypeRequestTypes(Obj(m), targets, ids, stream);
  }

  /** A POST to `/click` with an object body clicks at the body's `x` and
      `y`, unchanged, in the tab the body names, and echoes them; a body
      lacking either coordinate, or naming a tab by something that is
      neither falsy nor a string, fails before anything is written. */
  lemma ClickRequestReadsBody(m: Fields, targets: seq<Target>, ids: IdSource, stream: seq<Session.Message>)
    ensures var h := Handle(Server.Request("POST", "/click", Obj(m)), targets, ids, stream);
      if "x" in m && "y" in m && Server.StringFieldOk(m, "tabUrl") then
        var r := ClickAt(targets, Server.NamedIn(m, "tabUrl"), m["x"], m["y"], ids, stream);
        h == Done(r.sent, if r.result.Ok? then ClickedResponse(m["x"], m["y"]) else ErrorResponse(r.result.error))
      else h == Done([], MalformedBody)
  {
    Server.ClickReadsBody(m);
    ClickRequestClicks(Obj(m), targets, ids, stream);
  }

  /** A path outside the table writes nothing and lists the endpoints. */
  lemma UnknownNeverConnects(req: Server.Request, targets: seq<Target>, ids: IdSource, stream: seq<Session.Message>)
    requires !Server.Routable(req.verb, req.path)
    ensures Handle(req, targets, ids, stream)
         == Done([], UnknownResponse("Unknown: " + req.verb + " " + req.path, Server.Endpoints))
  {
    Server.UnknownIffNotRoutable(req);
  }

  /** A POST to `/type` or `/click` whose body is not a JSON object fails
      in the handler before any command is written. */
  lemma NonObjectBodyNeverConnects(path: string, body: Value, targets: seq<Target>, ids: IdSource, stream: seq<Session.Message>)
    requires path == "/type" || path == "/click"
    requires !body.Obj?
    ensures Handle(Server.Request("POST", path, body), targets, ids, stream) == Done([], MalformedBody)
  {
  }

  /** `POST /type HTTP/1.1`, the blank line, and a JSON body. */
  const TypeRequest := "POST" + " " + "/type" + " " + "HTTP/1.1" + Server.HeaderEnd + "{\"text\": \"ab\"}"

  /** The request line and body of a typing request. */
  lemma TypeRequestParses(decode: string -> Option<Value>)
    ensures Server.ParseRequest(TypeRequest, decode)
         == Server.Request("POST", "/type", decode("{\"text\": \"ab\"}").GetOr(EmptyObject))
  {
    Server.ParseRoundTrip("POST", "/type", "HTTP/1.1", "{\"text\": \"ab\"}", decode);
  }

  /** A typing request that gives only the text, arriving while the
      browser has no page open, fails in selection before anything is
      written. */
  lemma TypeWithoutPages(text: string, ids: IdSource, stream: seq<Session.Message>)
    ensures Handle(Server.Request("POST", "/type", Obj(map["text" := Str(text)])), [], ids, stream)
         == Done([], ErrorResponse(SelectFailed(NoPageTargets)))
  {
    Server.TypeDefaults(text);
    assert Pages([]) == [];
  }

  /** The same request as raw text, under any JSON decoder that reads its
      body as the object it spells: the line and body parse, and the
      typing fails for want of a page. */
  lemma TypeWithoutPagesScenario(decode: string -> Option<Value>, ids: IdSource, stream: seq<Session.Message>)
    requires decode("{\"text\": \"ab\"}") == Some(Obj(map["text" := Str("ab")]))
    ensures Handle(Server.ParseRequest(TypeRequest, decode), [], ids, stream)
         == Done([], ErrorResponse(SelectFailed(NoPageTargets)))
  {
    TypeRequestParses(decode);
    TypeWithoutPages("ab", ids, stream);
  }
}
