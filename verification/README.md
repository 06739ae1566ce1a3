# openclaw-cdp-bridge, modelled in Dafny

`bridge.py` is a small HTTP bridge. It lets an agent type into, click on and
inspect a Chromium tab through the Chrome DevTools Protocol (CDP). Each HTTP
request is handled in four steps:

1. Parse the request line and the JSON body.
2. Pick a tab from the browser's target listing.
3. Open that tab's protocol WebSocket.
4. Write protocol commands one at a time, each awaiting the reply that
   carries the same id.

Typing is done with raw `Input.dispatchKeyEvent` events, three per
character, so that pages see trusted key presses.

This project models the deterministic logic around that I/O. The inputs are
the target listing, the messages the WebSocket delivers, and the command ids.
Each modelled operation is a pure function over those inputs.

| module | file | models |
|---|---|---|
| `Prelude` | `prelude.dfy` | `Option`/`Result`; ASCII character classes; Python `in` and `str.split(sep, 1)`; order-preserving filter and flat map |
| `Json` | `json.dfy` | JSON values; Python truthiness; `d.get(k)`, `d.get(k, default)` and `d[k]` on a decoded body |
| `Targets` | `targets.dfy` | `get_ws_url`: page filter, case-insensitive url filter, first match, three errors |
| `Session` | `session.dfy` | `cdp_send`: the outgoing command, awaiting the reply with the same id, a run of commands on one connection |
| `Input` | `input.dfy` | `SPECIAL_KEYS`, `dispatch_key`, the trace of `cdp_type` (focus, clear chord, key triplets, `Sleep(ms)` markers), the click pair of `cdp_click`, the wire parameters of each event |
| `Server` | `server.dfy` | `handle_request`: request line, POST body, routing table, `\n` unescaping |
| `Bridge` | `bridge.dfy` | `cdp_type` and `cdp_click` end to end (select, connect, send, result), `/tabs`, and the handler's response |

Each operation is paired with a partner definition, and lemmas connect the
two:

- Selection is checked against "the first eligible record".
- Correlation is checked against "the first message carrying the id".
- Wire encodings are checked by reading them back.
- The routing chain is checked against a routing table that names each
  path's methods and handler.
- A run of commands is checked against a reading of the message stream
  that takes the commands' answers one at a time, in turn.
- Unescaping is checked against escaping.

Two details of `bridge.py` are modelled as written:

- An ordinary character's keyDown and keyUp events carry `text`, as its
  char event does (bridge.py:124-127).
- The `'GET'` default for the method (bridge.py:297) can never apply:
  `split(' ', 2)` always returns at least one piece, so the method is
  that first piece, possibly empty.

## Model

| member | source | states |
|---|---|---|
| Targets.Connect | bridge.py:71-74 | The chosen record yields an endpoint exactly when its `webSocketDebuggerUrl` is present and non-empty. The endpoint's tab url defaults to "unknown". Otherwise the error names the record's url. |
| Targets.CandidatesAreEligible | bridge.py:58-65 | The records selection picks the head of are exactly the listing's eligible records, in listing order. Eligible means a page, and also url-matching when a filter is given. |
| Targets.SelectsFirstEligible | bridge.py:55-74 | Selection connects to the first eligible record in listing order. |
| Targets.FailsWithoutEligible | bridge.py:60-69 | With no eligible record, selection fails. With a filter it fails as "no tab matching", listing every page's url. Without one it fails as "no page targets". |
| Targets.UnmatchedFilterListsPages | bridge.py:60-64 | An unmatched non-empty filter reports itself and the url of every page, one entry per page, in listing order. Every page's url is among them. |
| Targets.IgnoresNonPages | bridge.py:58 | Inserting a record whose type is not "page" anywhere in the listing never changes the outcome. |
| Targets.PagesSkipNonPage | bridge.py:58 | Removing a record whose type is not "page" leaves the list of pages unchanged. |
| Targets.StableUnderAppend | bridge.py:65-69 | Once an eligible record exists, records listed after it never change the outcome. |
| Targets.CaseInsensitive | bridge.py:61 | Filters that agree once lower-cased select the same endpoint, and succeed or fail together. |
| Targets.UpperCaseFilterMatches | bridge.py:61 | The filter "X.COM" matches the url "https://x.com/home". |
| Session.Command | bridge.py:80-84 | The command carries its id and method. `params` is present exactly when non-empty and `sessionId` exactly when non-empty, and nothing else is present. |
| Session.CommandRoundTrip | bridge.py:80-85 | Reading a command back recovers id, method, parameters and session id. The only loss is an empty session id, which is dropped. |
| Session.Await | bridge.py:86-91 | The reply is the first message whose id equals the sent id. An `error` field makes it a failure, and a missing `result` reads `{}`. The connection closes without a reply exactly when no message carries the id. |
| Session.ErrorWinsOverResult | bridge.py:88-90 | A reply carrying both `error` and `result` is a failure. |
| Session.SkipsOtherIds | bridge.py:86-88 | Messages with other ids that arrive first are skipped. The reply is unchanged apart from its position. |
| Session.IgnoresLaterMessages | bridge.py:86-91 | Messages after the reply are never read and never change it. |
| Session.SendAll | bridge.py:77-91 | A run of commands writes the encoded commands in order, each with its id. It completes only after writing all of them, with one result each. Otherwise it stops after writing at least one. |
| Session.SendAllTakesTurns | bridge.py:77-91 | A run of commands completes exactly when every command is answered with a result in turn, and then returns those results and the unread rest. Otherwise it stops after writing command k+1, where commands 0..k-1 were each answered with a result. It fails with command k's error, or as closed when no message answers command k. |
| Session.TurnsPrefix | bridge.py:86-91 | If commands 0..k-1 were each answered with a result in turn, so was every command before them, with the same result. |
| Session.StopsAtFirstUnreturned | bridge.py:86-91 | A run stops at the first command not answered with a result. It writes that command and every one before it, and fails with that command's error, or as closed. |
| Session.CompletedMeansReturned | bridge.py:86-91 | In a completed run, every command was answered with a result in turn, and the run returns exactly those results. |
| Session.AnsweredPrefixTurns | bridge.py:86-91 | A stream that answers commands 0..k-1 in turn with results reads, in turn, as exactly those results, followed by whatever comes next. |
| Session.ErrorAnswerStopsAt | bridge.py:86-90 | An error answer to command k, after commands 0..k-1 were answered with results, ends the run with that error after writing k+1 commands. |
| Session.UnansweredClosesAt | bridge.py:85-88 | If nothing after the answers to commands 0..k-1 answers command k, the run fails as closed after writing k+1 commands. |
| Session.PromptAnswersComplete | bridge.py:77-91 | When each command is answered in turn, the run writes every command, returns exactly the answers' results, and leaves nothing unread. |
| Input.SpecialKeyTriplet | bridge.py:96-112 | Newline, tab and carriage return give rawKeyDown, char and keyUp. All three carry the table's key, code and virtual key (13, 9, 13) and no modifiers. Only char has text: `\r` for a newline, else the character. A 50 ms pause follows. |
| Input.PrintableKeyTriplet | bridge.py:113-129 | Any other character gives keyDown, char and keyUp with key = text = the character and both virtual keys = its code point. Modifiers are 8 for upper-case letters and the shifted symbols, else 0. The code is `Key<UPPER>`, `Digit<d>` or "". An 8 ms pause follows. |
| Input.EveryTripletCoherent | bridge.py:104-129 | Every character's triplet is a down event, a char event and a keyUp. All three agree on key, code, both virtual key codes and modifiers, and the char event enters exactly one character. |
| Input.TripletTypesOnWire | bridge.py:106-128 | On the wire, a triplet's events are typed "rawKeyDown" for a special key and "keyDown" for any other character, then "char", then "keyUp". |
| Input.NewlineSentAsReturn | bridge.py:96-110 | A line feed is typed exactly like a carriage return. |
| Input.KeyTraceKeyEvents | bridge.py:104-129 | One character's four-step block emits exactly that character's key triplet. |
| Input.KeyTraceEntersText | bridge.py:106-129 | One character's block enters exactly one character: a carriage return for a line feed, else the character itself. |
| Input.CharTrace | bridge.py:163-166 | The character loop produces four steps per character. |
| Input.CharTraceBlocks | bridge.py:163-166 | The loop's trace is the characters' own four-step blocks, in text order. |
| Input.CharsTyped | bridge.py:163-169 | The reported count equals the text's length. |
| Input.TypeTraceKeyEvents | bridge.py:139-166 | Typing emits 3·\|text\| key events, plus 4 when clearing. The clear chord (Meta+A down and up, then Backspace rawKeyDown and keyUp) comes first. Then come every character's triplet in text order. |
| Input.PrefixObservations | bridge.py:139-161 | Focusing emits no key event and no text. Clearing emits exactly the four chord events and no text. |
| Input.TypeTraceEntersText | bridge.py:106-166 | The text carried by the char events of the whole trace is the typed text, with each line feed entered as a carriage return. |
| Input.FocusComesFirst | bridge.py:139-143 | With a selector, the trace opens with the focus evaluation and a 100 ms pause. No other evaluation is ever sent. Without a selector, none is sent. |
| Input.FocusCallOnWire | bridge.py:139-142 | A non-empty selector is focused by one `Runtime.evaluate` whose expression is `document.querySelector('<selector>').focus()`. An empty or absent selector evaluates nothing. |
| Input.ClickTraceUnrolled | bridge.py:208-213 | The click loop is a press, a 20 ms pause, a release at the same point, and another 20 ms pause. |
| Input.KeyParams | bridge.py:107-110 | The optional `nativeVirtualKeyCode`, `modifiers` and `text` fields appear exactly when the event has them. |
| Input.KeyParamsRoundTrip | bridge.py:107-110 | Reading a key event's parameter object back recovers every field of the event. |
| Input.CharTraceCalls | bridge.py:163-166 | The character loop writes one key command per event, in text order. |
| Input.KeyTraceCalls | bridge.py:107-112 | One character's block writes three `Input.dispatchKeyEvent` commands, one per event of its triplet, in order. |
| Input.ClearChordOnWire | bridge.py:145-161 | Clearing is Meta+A down and up, a 50 ms pause, Backspace down and up, and another 50 ms pause. It writes exactly the four chord commands. Not clearing adds nothing. |
| Input.ClearChordParams | bridge.py:147-160 | On the wire, both select-all events are `Input.dispatchKeyEvent` with key "a", code "KeyA", virtual key 65 and modifiers 4 (Meta). Both Backspace events have virtual key 8 and no modifiers. None of the four carries text or a native key code. |
| Input.TypeTraceCalls | bridge.py:139-166 | The commands `cdp_type` writes are: the focus evaluation when a selector is given, then the four chord commands when clearing, then the characters' key commands. That is 3·\|text\| + 4·clear + 1·focus commands. |
| Input.ClickCalls | bridge.py:208-212 | A click writes `Input.dispatchMouseEvent` for mousePressed, then for mouseReleased. Both parameter maps are stated as literals: the same x and y, button "left" and click count 1. |
| Server.ParseRoundTrip | bridge.py:295-306 | A request `M P V`, a blank line and a body parses to method M and path P. For POST the body is the decoded tail (`{}` when undecodable). For any other method it is `{}`. |
| Server.HeaderSplit | bridge.py:295-306 | When the first line holds no carriage return, the request line is everything before the first line break, and the body is everything after the blank line. |
| Server.LineSplit | bridge.py:296-298 | A line `M P V` whose method and path hold no space splits back into exactly M and P. |
| Server.BodyOnlyForPost | bridge.py:300-306 | The body is `{}` unless the method is POST and the request contains a blank line. Otherwise it is the decoding of what follows the first blank line. |
| Server.RequestLineShape | bridge.py:295-298 | The method is the first line up to its first space, and holds no space. A line with a space is the method, a space and a rest. The path is that whole rest, or the rest is the path, a space and the version. A line without a space gives the whole line as method and "/" as path, so the "GET" default never applies. |
| Server.TypeDefaults | bridge.py:318-320 | A typing body with only `text` types the unescaped text into the default tab, with no focus and no clearing. |
| Server.TypeReadsBody | bridge.py:318-320 | A `/type` POST with an object body reaches the typing handler exactly when its `text` is absent or a string and its `tabUrl` and `selector` are each falsy or a string. The handler then gets the text (default empty) with escaped newlines restored, the tab and selector the body names, and whether `clear` is truthy. Any other body fails. |
| Server.ClickReadsBody | bridge.py:323-324 | A `/click` POST with an object body reaches the click handler exactly when it has `x` and `y` and its `tabUrl` is falsy or a string. The handler then gets `x` and `y` unchanged and the tab the body names. Any other body fails. |
| Server.NonObjectBodyFails | bridge.py:318-345 | A POST whose body is not a JSON object fails in every handler that reads the body. |
| Server.UnknownIffNotRoutable | bridge.py:309-350 | A request falls through to the error body exactly when the routing table has no entry for its method and path. `/type`, `/click`, `/eval`, `/agent` and `/find` are POST only. The error names the method and path and lists the nine endpoints. |
| Server.DispatchFollowsTable | bridge.py:309-345 | A request matching a row of the routing table reaches that row's handler, or fails on its body. The health and tab-listing handlers never fail. |
| Server.EndpointsAreTablePaths | bridge.py:348-350 | The advertised endpoints are the table's paths in order, and they are exactly the paths a POST can reach. |
| Server.PageFilterFromBodyAlone | bridge.py:331-336 | The POST test of `/dom` and `/axtree` is redundant, because the body is `{}` for every other method. |
| Server.UnescapeLeavesNoEscape | bridge.py:319 | After unescaping, the typed text holds no backslash directly followed by `n`. |
| Server.UnescapeInvertsEscape | bridge.py:319 | Unescaping inverts writing line feeds as backslash-n, for every text with no backslash directly before an `n`. |
| Bridge.Drive | bridge.py:135-166 | If selection fails, nothing is written. Otherwise the trace's commands are written in order with the k-th id. Success means every command was written and the result is the selected tab's url. A protocol failure means at least one command was written. |
| Bridge.FinishTakesTurns | bridge.py:77-91 | Once connected, the operation succeeds exactly when every command is answered with a result in turn. Otherwise it stops at the last command it wrote, whose answer explains the failure. |
| Bridge.DriveTakesTurns | bridge.py:135-166 | The operation succeeds exactly when a tab is selected and every command is answered with a result in turn. Once a tab is selected, a failure stops at the last command written, after every earlier one was answered with a result. A protocol error is the error that command received. A closed connection means the command was never answered. |
| Bridge.TypeText | bridge.py:132-169 | Success reports \|text\| characters and the selected tab, after writing every command of the trace. A selection failure writes nothing. |
| Bridge.ClickAt | bridge.py:204-214 | At most a press and a release are written, in that order. Success returns the point. A selection failure writes nothing. |
| Bridge.TypeTextTakesTurns | bridge.py:132-169 | Typing writes what its trace writes. It succeeds exactly when a tab is selected and every one of the trace's commands, all the way to its last, is answered with a result in turn. Otherwise it stops at the command whose answer explains the failure. |
| Bridge.ClickAtTakesTurns | bridge.py:204-214 | A click succeeds exactly when a tab is selected and both mouse events are answered with a result in turn. Otherwise it stops at the event whose answer explains the failure. |
| Bridge.DriveCompletes | bridge.py:77-91 | On a browser that answers each command in turn, every command is written and the operation succeeds with the tab's url. |
| Bridge.ErrorAnswerStops | bridge.py:86-90 | An error reply to command k, after commands 0..k-1 were answered with results, ends the operation with that error. Exactly commands 0..k are written. |
| Bridge.UnansweredCommandCloses | bridge.py:85-88 | If no reply to command k arrives after commands 0..k-1 were answered with results, the operation fails as closed. Exactly commands 0..k are written. |
| Bridge.TypeTextCompletes | bridge.py:132-169 | On a cooperative browser, typing writes every command of the trace and reports \|text\| characters and the chosen tab. |
| Bridge.NothingToType | bridge.py:139-169 | Empty text with no selector and no clearing writes nothing. It succeeds with 0 characters exactly when a tab is selected. |
| Bridge.HiCalls | bridge.py:96-166 | Typing "Hi\n" writes nine key commands. The eighth is the Enter char event. |
| Bridge.HiEntersReturn | bridge.py:110 | Typing "Hi\n" enters "Hi\r". |
| Bridge.HiEndsWithPause | bridge.py:112 | The trace of "Hi\n" has twelve steps and ends with the 50 ms pause. |
| Bridge.HiTabSelected | bridge.py:55-74 | With no filter, the listing's only page is chosen, with its endpoint and url. |
| Bridge.TypeHiScenario | bridge.py:132-169 | Typing "Hi\n" into the only tab writes nine commands and reports three characters and that tab's url. |
| Bridge.TabsArePages | bridge.py:313-316 | `/tabs` lists one entry per page target, in listing order, each with that page's title and url. A missing title or url reads "". |
| Bridge.DefaultTargetIsFirstListed | bridge.py:58-74 | Without a filter, the tab an operation drives is the first entry `/tabs` lists. Selection fails for lack of pages exactly when the listing is empty. |
| Bridge.Handle | bridge.py:308-350 | Unknown paths and malformed bodies write nothing. The unknown-path reply lists the nine endpoints. Only evaluation, DOM, accessibility, agent and find routes are left to traffic outside the model. |
| Bridge.TabsNeverConnects | bridge.py:312-316 | `/tabs` answers for every method and body with the listing of the page targets, and writes nothing. |
| Bridge.TypeRequestTypes | bridge.py:318-321 | A `/type` POST either fails on its body and writes nothing, or types its text into the tab it names. It then reports every character of the text and the selected tab's url, or the failure that stopped the typing, with exactly the commands the typing wrote. |
| Bridge.ClickRequestClicks | bridge.py:323-325 | A `/click` POST either fails on its body and writes nothing, or clicks at its point. It then echoes that point, or reports the failure that stopped the click, with exactly the commands the click wrote. |
| Bridge.TypeRequestReadsBody | bridge.py:318-321 | A `/type` POST with an object body types the body's text, with escaped newlines restored, into the tab the body names. It focuses the selector the body names and clears when `clear` is truthy. It answers with the text's length and the selected url, or with the failure. A malformed field writes nothing. |
| Bridge.ClickRequestReadsBody | bridge.py:323-325 | A `/click` POST with an object body clicks at the body's `x` and `y` in the tab the body names and echoes them, or answers with the failure. A body lacking either coordinate writes nothing. |
| Bridge.HealthNeverConnects | bridge.py:309-310 | `/health` answers for every method and body without touching the browser. |
| Bridge.UnknownNeverConnects | bridge.py:347-350 | A method and path outside the table write nothing. The reply names them and lists the endpoints. |
| Bridge.NonObjectBodyNeverConnects | bridge.py:318-325 | A `/type` or `/click` POST whose body is not a JSON object fails before any command is written. |
| Bridge.TypeRequestParses | bridge.py:295-306 | `POST /type HTTP/1.1`, a blank line and a body parse to POST, `/type` and the decoded body. |
| Bridge.TypeWithoutPages | bridge.py:293-321 | A typing request whose body holds only `text` fails with "no page targets" while no page is open, and writes nothing. |
| Bridge.TypeWithoutPagesScenario | bridge.py:293-321 | Under any JSON decoder that reads the body `{"text": "ab"}` as that object, the raw typing request fails with "no page targets" while no page is open, and writes nothing. |

## Left out

- Network I/O is not modelled. This covers the `/json` listing fetch (`get_targets`), the WebSocket connect, send and receive, and the asyncio server. The listing, the delivered messages and the request text are inputs instead. A failing WebSocket connect is not modelled.
- Real sleeps are not modelled. Pauses appear only as `Sleep(ms)` markers in the trace.
- Command ids are not derived from the clock. The source computes them with `time.time()` modulo 10^7; here they are a parameter giving the k-th command's id. The model never assumes that ids are distinct.
- `cdp_evaluate`, `cdp_get_dom` and `cdp_get_ax_tree` are modelled only up to routing. They are single pass-through protocol calls, and `Bridge.Handle` reports them as delegated.
- `browser_use_agent` and `browser_use_find_element` are modelled only up to routing. They wrap an external library and model backends that are not part of this model.
- The command line (`main`, `list_tabs`, `serve`) is not modelled. Neither are printing, JSON serialisation of the response, or the status line and headers.
- Character classes and case mapping are ASCII only. `str.lower`, `isupper`, `isalpha` and `isdigit` are modelled on A-Z, a-z and 0-9, and other code points have no case or class. Key codes are code points, as `ord` gives them.
- JSON numbers are integers. Floats are not modelled.
- A record field that is JSON `null` is treated as absent.
- Decoding the request is not modelled: the single 64 KiB read and UTF-8 decoding are outside the model. JSON decoding is an opaque parameter that returns nothing on a decode error.
- Server.OptionalString: a truthy `tabUrl` or `selector` that is not a string is modelled as a failure of the handler. In the source, a non-string `tabUrl` fails only once there is a page url to compare against; with no pages, it is reported as an unmatched filter. A non-string `selector` is formatted into the focus expression instead of failing. Either way, the source sends nothing before failing on a `tabUrl`.
- Error messages are modelled as structured values, not as their text. This covers the text of `RuntimeError`, the `CDP error: …` prefix, and `str(e)`.
- Session.Answers: only an integer id equal to the sent id answers a command. Python's `==` would also accept a JSON `true` or `false` for the ids 1 or 0, and a float equal to the id.
- Incoming messages are modelled as already-decoded JSON objects. A frame that fails to decode, or decodes to something other than an object, makes the source raise; that is not modelled.
