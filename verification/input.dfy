/** Input synthesis (`SPECIAL_KEYS`, `dispatch_key`, `cdp_type`, `cdp_click`):
    text and coordinates become an ordered trace of protocol input events
    and pauses. A pause is a `Sleep(ms)` marker; nothing waits. */
module Input {
  import opened Prelude
  import opened Json
  import Session

  datatype KeyEventType = RawKeyDown | KeyDown | Char | KeyUp

  /** The parameters of one `Input.dispatchKeyEvent`; an optional field is
      None when the source leaves it out of the parameter object. */
  datatype KeyEvent = KeyEvent(
    kind: KeyEventType,
    key: string,
    code: string,
    windowsVirtualKeyCode: int,
    nativeVirtualKeyCode: Option<int>,
    modifiers: Option<int>,
    text: Option<string>)

  datatype MouseEventType = MousePressed | MouseReleased

  /** One protocol command the synthesiser issues. Click coordinates are
      passed on as received. */
  datatype Action =
    | Key(event: KeyEvent)
    | Mouse(mouse: MouseEventType, x: Value, y: Value)
    | Evaluate(expression: string)

  datatype Step = Send(action: Action) | Sleep(ms: nat)

  const ShiftModifier := 8
  const MetaModifier := 4

  /** Symbols typed with Shift held on a US layout. */
  const ShiftedSymbols := "!@#$%^&*()_+{}|:\"<>?~"

  /** Settle time after a special key: editors build a new block on Enter. */
  const SpecialKeyDelayMs: nat := 50
  /** Pause after each ordinary character. */
  const CharDelayMs: nat := 8
  /** Settle time after focusing the target element. */
  const FocusDelayMs: nat := 100
  /** Pause after the select-all chord and again after the backspace. */
  const ClearDelayMs: nat := 50
  /** Pause after each mouse event of a click. */
  const ClickDelayMs: nat := 20

  datatype KeySpec = KeySpec(key: string, code: string, virtualKeyCode: int)

  const SpecialKeys: map<char, KeySpec> := map[
    '\n' := KeySpec("Enter", "Enter", 13),
    '\t' := KeySpec("Tab", "Tab", 9),
    '\r' := KeySpec("Enter", "Enter", 13)]

  // ---------------------------------------------------------------------
  // One character
  // ---------------------------------------------------------------------

  /** Shift is held for upper-case letters and the shifted symbols. */
  function Modifiers(c: char): int {
    if IsUpper(c) || c in ShiftedSymbols then ShiftModifier else 0
  }

  /** The physical key code: `Key<UPPER>`, `Digit<d>`, or "" for the rest. */
  function PhysicalCode(c: char): string {
    if IsAlpha(c) then "Key" + [ToUpper(c)]
    else if IsDigit(c) then "Digit" + [c]
    else ""
  }

  function SpecialEvent(c: char, kind: KeyEventType): KeyEvent
    requires c in SpecialKeys
  {
    var spec := SpecialKeys[c];
    var text := if kind == Char then Some(if c == '\n' then "\r" else [c]) else None;
    KeyEvent(kind, spec.key, spec.code, spec.virtualKeyCode, Some(spec.virtualKeyCode), None, text)
  }

  function PrintableEvent(c: char, kind: KeyEventType): KeyEvent {
    KeyEvent(kind, [c], PhysicalCode(c), c as int, Some(c as int), Some(Modifiers(c)), Some([c]))
  }

  /** The three events `dispatch_key` sends for one character. */
  function KeyEvents(c: char): seq<KeyEvent> {
    if c in SpecialKeys then [SpecialEvent(c, RawKeyDown), SpecialEvent(c, Char), SpecialEvent(c, KeyUp)]
    else [PrintableEvent(c, KeyDown), PrintableEvent(c, Char), PrintableEvent(c, KeyUp)]
  }

  function KeyDelay(c: char): nat {
    if c in SpecialKeys then SpecialKeyDelayMs else CharDelayMs
  }

  /** `dispatch_key` as a trace: three events, then the pause. */
  function KeyTrace(c: char): seq<Step> {
    var es := KeyEvents(c);
    [Send(Key(es[0])), Send(Key(es[1])), Send(Key(es[2])), Sleep(KeyDelay(c))]
  }

  /** Newline, tab and carriage return are sent as the table's key with
      rawKeyDown, char, keyUp; only the char event has text, a carriage
      return for a newline; no modifiers; a 50 ms pause follows. */
  lemma SpecialKeyTriplet(c: char)
    requires c in SpecialKeys
    ensures |KeyTrace(c)| == 4 && KeyTrace(c)[3] == Sleep(50)
    ensures var es := KeyEvents(c);
      && |es| == 3
      && es[0].kind == RawKeyDown && es[1].kind == Char && es[2].kind == KeyUp
      && (forall i :: 0 <= i < 3 ==> KeyTrace(c)[i] == Send(Key(es[i])))
      && (forall i :: 0 <= i < 3 ==>
            && es[i].key == SpecialKeys[c].key
            && es[i].code == SpecialKeys[c].code
            && es[i].windowsVirtualKeyCode == SpecialKeys[c].virtualKeyCode
            && es[i].nativeVirtualKeyCode == Some(SpecialKeys[c].virtualKeyCode)
            && es[i].modifiers.None?)
      && es[0].text.None? && es[2].text.None?
      && es[1].text == Some(if c == '\n' then "\r" else [c])
    ensures c == '\t' ==> KeyEvents(c)[0].key == "Tab" && KeyEvents(c)[0].windowsVirtualKeyCode == 9
    ensures c != '\t' ==> KeyEvents(c)[0].key == "Enter" && KeyEvents(c)[0].windowsVirtualKeyCode == 13
  {
  }

  /** Every other character is sent as keyDown, char, keyUp, all three
      carrying the character as key and text, its code point as both
      virtual key codes, one shared modifier value (Shift exactly for
      upper-case letters and the shifted symbols) and the physical code
      of its class; an 8 ms pause follows. */
  lemma PrintableKeyTriplet(c: char)
    requires c !in SpecialKeys
    ensures |KeyTrace(c)| == 4 && KeyTrace(c)[3] == Sleep(8)
    ensures var es := KeyEvents(c);
      && |es| == 3
      && es[0].kind == KeyDown && es[1].kind == Char && es[2].kind == KeyUp
      && (forall i :: 0 <= i < 3 ==> KeyTrace(c)[i] == Send(Key(es[i])))
      && (forall i :: 0 <= i < 3 ==>
            && es[i].key == [c] && es[i].text == Some([c])
            && es[i].windowsVirtualKeyCode == c as int
            && es[i].nativeVirtualKeyCode == Some(c as int)
            && es[i].modifiers == Some(if IsUpper(c) || c in ShiftedSymbols then 8 else 0))
    ensures IsAlpha(c) ==> KeyEvents(c)[0].code == "Key" + [ToUpper(c)] && IsUpper(KeyEvents(c)[0].code[3])
    ensures IsDigit(c) ==> KeyEvents(c)[0].code == "Digit" + [c]
    ensures !IsAlpha(c) && !IsDigit(c) ==> KeyEvents(c)[0].code == ""
    ensures forall i :: 0 <= i < 3 ==> KeyEvents(c)[i].code == KeyEvents(c)[0].code
  {
  }

  /** The shape every triplet shares: a down event (raw or not), a char
      event and a key-up, agreeing on key, code, both virtual key codes
      and modifiers. */
  predicate Coherent(es: seq<KeyEvent>) {
    && |es| == 3
    && (es[0].kind == RawKeyDown || es[0].kind == KeyDown)
    && es[1].kind == Char && es[2].kind == KeyUp
    && (forall i :: 0 <= i < 3 ==>
          && es[i].key == es[0].key
          && es[i].code == es[0].code
          && es[i].windowsVirtualKeyCode == es[0].windowsVirtualKeyCode
          && es[i].nativeVirtualKeyCode == Some(es[0].windowsVirtualKeyCode)
          && es[i].modifiers == es[0].modifiers)
    && es[1].text.Some? && |es[1].text.value| == 1
  }

  lemma EveryTripletCoherent(c: char)
    ensures Coherent(KeyEvents(c))
  {
  }

  /** Newline and carriage return produce identical events. */
  lemma NewlineSentAsReturn()
    ensures KeyTrace('\n') == KeyTrace('\r')
  {
  }

  // ---------------------------------------------------------------------
  // Whole strings
  // ---------------------------------------------------------------------

  /** The character loop of `cdp_type`. */
  function CharTrace(text: string): (t: seq<Step>)
    ensures |t| == 4 * |text|
  {
    if |text| == 0 then [] else KeyTrace(text[0]) + CharTrace(text[1..])
  }

  /** The trace holds one four-step block per character, in text order. */
  lemma {:induction false} CharTraceBlocks(text: string)
    ensures forall k, j :: 0 <= k < |text| && 0 <= j < 4 ==> CharTrace(text)[4 * k + j] == KeyTrace(text[k])[j]
  {
    if |text| > 0 {
      CharTraceBlocks(text[1..]);
      forall k, j | 0 <= k < |text| && 0 <= j < 4
        ensures CharTrace(text)[4 * k + j] == KeyTrace(text[k])[j]
      {
        if k > 0 {
          assert CharTrace(text)[4 * k + j] == CharTrace(text[1..])[4 * (k - 1) + j];
          assert text[1..][k - 1] == text[k];
        }
      }
    }
  }

  /** `selector` is truthy: focus the element first. */
  predicate FocusGiven(selector: Option<string>) {
    selector.Some? && selector.value != ""
  }

  function FocusExpression(selector: string): string {
    "document.querySelector('" + selector + "').focus()"
  }

  function FocusSteps(selector: Option<string>): seq<Step> {
    if FocusGiven(selector) then [Send(Evaluate(FocusExpression(selector.value))), Sleep(FocusDelayMs)]
    else []
  }

  /** The Meta+A chord of the clear sequence (no native code, no text). */
  function SelectAll(kind: KeyEventType): KeyEvent {
    KeyEvent(kind, "a", "KeyA", 65, None, Some(MetaModifier), None)
  }

  function Backspace(kind: KeyEventType): KeyEvent {
    KeyEvent(kind, "Backspace", "Backspace", 8, None, None, None)
  }

  const ClearSequence: seq<Step> := [
    Send(Key(SelectAll(KeyDown))), Send(Key(SelectAll(KeyUp))), Sleep(ClearDelayMs),
    Send(Key(Backspace(RawKeyDown))), Send(Key(Backspace(KeyUp))), Sleep(ClearDelayMs)]

  function ClearSteps(clear: bool): seq<Step> {
    if clear then ClearSequence else []
  }

  /** Everything `cdp_type` sends after connecting, in order. */
  function TypeTrace(text: string, selector: Option<string>, clear: bool): seq<Step> {
    FocusSteps(selector) + ClearSteps(clear) + CharTrace(text)
  }

  /** `cdp_type` reports one processed character per character of the
      text; the count is of characters, not events. */
  function CharsTyped(text: string): (n: nat)
    ensures n == |text|
  {
    if |text| == 0 then 0 else 1 + CharsTyped(text[1..])
  }

  // ---------------------------------------------------------------------
  // Observations of a trace
  // ---------------------------------------------------------------------

  function StepKeyEvents(s: Step): seq<KeyEvent> {
    if s.Send? && s.action.Key? then [s.action.event] else []
  }

  /** The key events of a trace, in order. */
  function KeyEventsOf(steps: seq<Step>): seq<KeyEvent> {
    FlatMap(steps, StepKeyEvents)
  }

  /** One character's block observes exactly its triplet. */
  lemma KeyTraceKeyEvents(c: char)
    ensures KeyEventsOf(KeyTrace(c)) == KeyEvents(c)
  {
    var t := KeyTrace(c);
    FlatMapFour(t[0], t[1], t[2], t[3], StepKeyEvents);
  }

  /** The character loop observes the characters' triplets, concatenated. */
  lemma {:induction false} CharTraceObservesTriplets(text: string)
    ensures KeyEventsOf(CharTrace(text)) == FlatMap(text, KeyEvents)
  {
    if |text| > 0 {
      FlatMapAppend(KeyTrace(text[0]), CharTrace(text[1..]), StepKeyEvents);
      KeyTraceKeyEvents(text[0]);
      CharTraceObservesTriplets(text[1..]);
    }
  }

  /** The key events of the character loop are the characters' triplets. */
  lemma CharTraceKeyEvents(text: string)
    ensures |KeyEventsOf(CharTrace(text))| == 3 * |text|
    ensures forall k, j :: 0 <= k < |text| && 0 <= j < 3 ==> KeyEventsOf(CharTrace(text))[3 * k + j] == KeyEvents(text[k])[j]
  {
    CharTraceObservesTriplets(text);
    FlatMapTriples(text, KeyEvents);
  }

  /** Focusing sends no key event and no text; clearing sends the four
      chord events and no text. */
  lemma PrefixObservations(selector: Option<string>, clear: bool)
    ensures KeyEventsOf(FocusSteps(selector)) == [] && CharText(FocusSteps(selector)) == ""
    ensures KeyEventsOf(ClearSteps(clear))
         == (if clear then [SelectAll(KeyDown), SelectAll(KeyUp), Backspace(RawKeyDown), Backspace(KeyUp)] else [])
    ensures CharText(ClearSteps(clear)) == ""
  {
    var focus := FocusSteps(selector);
    if FocusGiven(selector) {
      FlatMapTwo(focus[0], focus[1], StepKeyEvents);
      FlatMapTwo(focus[0], focus[1], StepCharText);
    }
    if clear {
      var c := ClearSequence;
      assert c == [c[0], c[1]] + [c[2], c[3], c[4], c[5]];
      FlatMapAppend([c[0], c[1]], [c[2], c[3], c[4], c[5]], StepKeyEvents);
      FlatMapAppend([c[0], c[1]], [c[2], c[3], c[4], c[5]], StepCharText);
      FlatMapTwo(c[0], c[1], StepKeyEvents);
      FlatMapTwo(c[0], c[1], StepCharText);
      FlatMapFour(c[2], c[3], c[4], c[5], StepKeyEvents);
      FlatMapFour(c[2], c[3], c[4], c[5], StepCharText);
    }
  }

  /** The key events of the clear chord. */
  const ClearKeys: seq<KeyEvent> := [SelectAll(KeyDown), SelectAll(KeyUp), Backspace(RawKeyDown), Backspace(KeyUp)]

  /** Focusing observes nothing, clearing observes the chord, and the
      character loop follows. */
  lemma TypeTraceKeyEventsSplit(text: string, selector: Option<string>, clear: bool)
    ensures KeyEventsOf(TypeTrace(text, selector, clear))
         == (if clear then ClearKeys else []) + KeyEventsOf(CharTrace(text))
  {
    var focus := FocusSteps(selector);
    var clearing := ClearSteps(clear);
    FlatMapAppend(focus + clearing, CharTrace(text), StepKeyEvents);
    FlatMapAppend(focus, clearing, StepKeyEvents);
    PrefixObservations(selector, clear);
  }

  /** The key events of `cdp_type`: the clear chord (when clearing) comes
      first and complete, then the triplet of every character in order;
      3 per character plus 4 for clearing. */
  lemma TypeTraceKeyEvents(text: string, selector: Option<string>, clear: bool)
    ensures |KeyEventsOf(TypeTrace(text, selector, clear))| == 3 * |text| + ClearCount(clear)
    ensures clear ==> KeyEventsOf(TypeTrace(text, selector, clear))[..4] == ClearKeys
    ensures forall k, j :: 0 <= k < |text| && 0 <= j < 3 ==>
      KeyEventsOf(TypeTrace(text, selector, clear))[ClearCount(clear) + 3 * k + j] == KeyEvents(text[k])[j]
  {
    TypeTraceKeyEventsSplit(text, selector, clear);
    CharTraceKeyEvents(text);
    var pre: seq<KeyEvent> := if clear then ClearKeys else [];
    assert |pre| == ClearCount(clear);
    TripletsAfter(pre, KeyEventsOf(CharTrace(text)), text);
  }

  /** Triplets keep their positions, shifted, behind a prefix. */
  lemma TripletsAfter(pre: seq<KeyEvent>, rest: seq<KeyEvent>, text: string)
    requires |rest| == 3 * |text|
    requires forall k, j :: 0 <= k < |text| && 0 <= j < 3 ==> rest[3 * k + j] == KeyEvents(text[k])[j]
    ensures forall k, j :: 0 <= k < |text| && 0 <= j < 3 ==> (pre + rest)[|pre| + 3 * k + j] == KeyEvents(text[k])[j]
  {
    forall k, j | 0 <= k < |text| && 0 <= j < 3
      ensures (pre + rest)[|pre| + 3 * k + j] == KeyEvents(text[k])[j]
    {
      assert (pre + rest)[|pre| + 3 * k + j] == rest[3 * k + j];
    }
  }

  function StepCharText(s: Step): string {
    if s.Send? && s.action.Key? && s.action.event.kind == Char then s.action.event.text.GetOr("") else ""
  }

  /** The text carried by the `char` events of a trace, in order. */
  function CharText(steps: seq<Step>): string {
    FlatMap(steps, StepCharText)
  }

  /** The character a `char` event enters for `c`. */
  function Entered(c: char): char {
    if c == '\n' then '\r' else c
  }

  /** Reading the char events back gives the text, with each line feed
      entered as a carriage return; focusing and clearing enter nothing. */
  lemma TypeTraceEntersText(text: string, selector: Option<string>, clear: bool)
    ensures CharText(TypeTrace(text, selector, clear)) == seq(|text|, i requires 0 <= i < |text| => Entered(text[i]))
  {
    var focus := FocusSteps(selector);
    var clearing := ClearSteps(clear);
    FlatMapAppend(focus + clearing, CharTrace(text), StepCharText);
    FlatMapAppend(focus, clearing, StepCharText);
    PrefixObservations(selector, clear);
    CharTraceEntersText(text);
  }

  /** The text one character's `char` event enters. */
  function EnteredText(c: char): string {
    [Entered(c)]
  }

  /** One character's block enters exactly that character. */
  lemma KeyTraceEntersText(c: char)
    ensures CharText(KeyTrace(c)) == EnteredText(c)
  {
    var t := KeyTrace(c);
    FlatMapFour(t[0], t[1], t[2], t[3], StepCharText);
  }

  lemma {:induction false} CharTraceTextBlocks(text: string)
    ensures CharText(CharTrace(text)) == FlatMap(text, EnteredText)
  {
    if |text| > 0 {
      FlatMapAppend(KeyTrace(text[0]), CharTrace(text[1..]), StepCharText);
      KeyTraceEntersText(text[0]);
      CharTraceTextBlocks(text[1..]);
    }
  }

  lemma CharTraceEntersText(text: string)
    ensures CharText(CharTrace(text)) == seq(|text|, i requires 0 <= i < |text| => Entered(text[i]))
  {
    CharTraceTextBlocks(text);
    FlatMapSingletons(text, EnteredText, Entered);
  }

  /** No step of the trace is an evaluation. */
  predicate NoEvaluate(steps: seq<Step>) {
    forall i :: 0 <= i < |steps| ==> !(steps[i].Send? && steps[i].action.Evaluate?)
  }

  /** Every command of the steps is a key event. */
  predicate KeysOnly(steps: seq<Step>) {
    forall i :: 0 <= i < |steps| ==> steps[i].Sleep? || steps[i].action.Key?
  }

  lemma {:induction false} CharTraceKeysOnly(text: string)
    ensures KeysOnly(CharTrace(text))
  {
    if |text| > 0 {
      CharTraceKeysOnly(text[1..]);
      var head: seq<Step> := KeyTrace(text[0]);
      var tail: seq<Step> := CharTrace(text[1..]);
      assert KeysOnly(head);
      forall i | 0 <= i < |head + tail|
        ensures (head + tail)[i].Sleep? || (head + tail)[i].action.Key?
      {
        if i >= |head| {
          assert (head + tail)[i] == tail[i - |head|];
        }
      }
    }
  }

  lemma CharTraceNoEvaluate(text: string)
    ensures NoEvaluate(CharTrace(text))
  {
    CharTraceKeysOnly(text);
  }

  /** With a selector, the trace opens with the focus evaluation and its
      100 ms settle; no other evaluation is ever sent. */
  lemma FocusComesFirst(text: string, selector: Option<string>, clear: bool)
    ensures var t := TypeTrace(text, selector, clear);
      && (FocusGiven(selector) ==>
            |t| >= 2 && t[0] == Send(Evaluate(FocusExpression(selector.value))) && t[1] == Sleep(100)
            && NoEvaluate(t[2..]))
      && (!FocusGiven(selector) ==> NoEvaluate(t))
  {
    var t := TypeTrace(text, selector, clear);
    var rest := ClearSteps(clear) + CharTrace(text);
    AfterFocusNoEvaluate(text, clear);
    if FocusGiven(selector) {
      assert t[2..] == rest;
    } else {
      assert t == rest;
    }
  }

  /** Clearing and typing characters send no evaluation. */
  lemma AfterFocusNoEvaluate(text: string, clear: bool)
    ensures NoEvaluate(ClearSteps(clear) + CharTrace(text))
  {
    CharTraceNoEvaluate(text);
    var rest := ClearSteps(clear) + CharTrace(text);
    forall i | 0 <= i < |rest|
      ensures !(rest[i].Send? && rest[i].action.Evaluate?)
    {
      if i >= |ClearSteps(clear)| {
        assert rest[i] == CharTrace(text)[i - |ClearSteps(clear)|];
      }
    }
  }

  // ---------------------------------------------------------------------
  // Mouse click
  // ---------------------------------------------------------------------

  /** One mouse event of a click at (x, y), then its pause. */
  function MouseSteps(x: Value, y: Value): MouseEventType -> seq<Step> {
    (m: MouseEventType) => [Send(Mouse(m, x, y)), Sleep(ClickDelayMs)]
  }

  /** `cdp_click`: the loop over the press and the release. */
  function ClickTrace(x: Value, y: Value): seq<Step> {
    FlatMap([MousePressed, MouseReleased], MouseSteps(x, y))
  }

  /** A click presses, pauses 20 ms, releases at the same point, and
      pauses 20 ms again. */
  lemma ClickTraceUnrolled(x: Value, y: Value)
    ensures ClickTrace(x, y)
         == [Send(Mouse(MousePressed, x, y)), Sleep(20), Send(Mouse(MouseReleased, x, y)), Sleep(20)]
  {
    FlatMapTwo(MousePressed, MouseReleased, MouseSteps(x, y));
  }

  // ---------------------------------------------------------------------
  // Wire format of the actions
  // ---------------------------------------------------------------------

  function KindName(kind: KeyEventType): string {
    match kind
    case RawKeyDown => "rawKeyDown"
    case KeyDown => "keyDown"
    case Char => "char"
    case KeyUp => "keyUp"
  }

  function ReadKind(s: string): Option<KeyEventType> {
    if s == "rawKeyDown" then Some(RawKeyDown)
    else if s == "keyDown" then Some(KeyDown)
    else if s == "char" then Some(Char)
    else if s == "keyUp" then Some(KeyUp)
    else None
  }

  /** The parameter object of a key event: optional fields appear only
      when the event has them. */
  function KeyParams(e: KeyEvent): (m: Fields)
    ensures "nativeVirtualKeyCode" in m <==> e.nativeVirtualKeyCode.Some?
    ensures "modifiers" in m <==> e.modifiers.Some?
    ensures "text" in m <==> e.text.Some?
  {
    var m := map["type" := Str(KindName(e.kind)), "key" := Str(e.key), "code" := Str(e.code),
                 "windowsVirtualKeyCode" := Num(e.windowsVirtualKeyCode)];
    var m := if e.nativeVirtualKeyCode.Some? then m["nativeVirtualKeyCode" := Num(e.nativeVirtualKeyCode.value)] else m;
    var m := if e.modifiers.Some? then m["modifiers" := Num(e.modifiers.value)] else m;
    if e.text.Some? then m["text" := Str(e.text.value)] else m
  }

  function ReadInt(m: Fields, key: string): Option<int> {
    if key in m && m[key].Num? then Some(m[key].n) else None
  }

  function ReadString(m: Fields, key: string): Option<string> {
    if key in m && m[key].Str? then Some(m[key].s) else None
  }

  /** How the browser reads a key event's parameter object. */
  function ReadKeyParams(m: Fields): Option<KeyEvent> {
    var kind := ReadString(m, "type");
    var key := ReadString(m, "key");
    var code := ReadString(m, "code");
    var vk := ReadInt(m, "windowsVirtualKeyCode");
    if kind.Some? && ReadKind(kind.value).Some? && key.Some? && code.Some? && vk.Some? then
      Some(KeyEvent(ReadKind(kind.value).value, key.value, code.value, vk.value,
                    ReadInt(m, "nativeVirtualKeyCode"), ReadInt(m, "modifiers"), ReadString(m, "text")))
    else None
  }

  /** The parameter object carries every field of the event, unchanged. */
  lemma KeyParamsRoundTrip(e: KeyEvent)
    ensures ReadKeyParams(KeyParams(e)) == Some(e)
  {
    assert ReadKind(KindName(e.kind)) == Some(e.kind);
  }

  function MouseParams(mouse: MouseEventType, x: Value, y: Value): Fields {
    map["type" := Str(if mouse == MousePressed then "mousePressed" else "mouseReleased"),
        "x" := x, "y" := y, "button" := Str("left"), "clickCount" := Num(1)]
  }

  /** The protocol command of an action. The typing path sends none of
      them with a session id. */
  function ActionCall(a: Action): Session.Call {
    match a
    case Key(e) => Session.Call("Input.dispatchKeyEvent", KeyParams(e), None)
    case Mouse(mouse, x, y) => Session.Call("Input.dispatchMouseEvent", MouseParams(mouse, x, y), None)
    case Evaluate(expression) => Session.Call("Runtime.evaluate", map["expression" := Str(expression)], None)
  }

  /** The commands of a trace, pauses dropped. */
  function StepCall(s: Step): seq<Session.Call> {
    if s.Send? then [ActionCall(s.action)] else []
  }

  function Calls(steps: seq<Step>): seq<Session.Call> {
    FlatMap(steps, StepCall)
  }

  function KeyCall(e: KeyEvent): Session.Call {
    ActionCall(Key(e))
  }

  function KeyCallOf(e: KeyEvent): seq<Session.Call> {
    [KeyCall(e)]
  }

  /** On key-only steps, the commands are those of the key events. */
  lemma KeyStepCalls(steps: seq<Step>)
    requires KeysOnly(steps)
    ensures |Calls(steps)| == |KeyEventsOf(steps)|
    ensures forall i :: 0 <= i < |Calls(steps)| ==> Calls(steps)[i] == KeyCall(KeyEventsOf(steps)[i])
  {
    FlatMapCompose(steps, StepKeyEvents, KeyCallOf, StepCall);
    FlatMapSingletons(KeyEventsOf(steps), KeyCallOf, KeyCall);
  }

  /** One character's block writes the commands of its triplet. */
  lemma KeyTraceCalls(c: char)
    ensures |Calls(KeyTrace(c))| == 3
    ensures forall j :: 0 <= j < 3 ==> Calls(KeyTrace(c))[j] == KeyCall(KeyEvents(c)[j])
  {
    var t := KeyTrace(c);
    var es := KeyEvents(c);
    FlatMapFour(t[0], t[1], t[2], t[3], StepCall);
    assert Calls(t) == [KeyCall(es[0]), KeyCall(es[1]), KeyCall(es[2])];
  }

  /** The commands one character's block writes. */
  function CharCalls(c: char): seq<Session.Call> {
    Calls(KeyTrace(c))
  }

  lemma {:induction false} CharTraceCallBlocks(text: string)
    ensures Calls(CharTrace(text)) == FlatMap(text, CharCalls)
  {
    if |text| > 0 {
      FlatMapAppend(KeyTrace(text[0]), CharTrace(text[1..]), StepCall);
      CharTraceCallBlocks(text[1..]);
    }
  }

  /** The character loop writes the key commands of every character's
      triplet, in text order. */
  lemma CharTraceCalls(text: string)
    ensures |Calls(CharTrace(text))| == 3 * |text|
    ensures forall k, j :: 0 <= k < |text| && 0 <= j < 3 ==>
      Calls(CharTrace(text))[3 * k + j] == KeyCall(KeyEvents(text[k])[j])
  {
    CharTraceCallBlocks(text);
    forall i | 0 <= i < |text|
      ensures |CharCalls(text[i])| == 3
    {
      KeyTraceCalls(text[i]);
    }
    FlatMapTriples(text, CharCalls);
    forall k, j | 0 <= k < |text| && 0 <= j < 3
      ensures Calls(CharTrace(text))[3 * k + j] == KeyCall(KeyEvents(text[k])[j])
    {
      KeyTraceCalls(text[k]);
    }
  }

  /** The commands of the focus evaluation. */
  function FocusCalls(selector: Option<string>): seq<Session.Call> {
    if FocusGiven(selector) then
      [Session.Call("Runtime.evaluate", map["expression" := Str(FocusExpression(selector.value))], None)]
    else []
  }

  const ClearChord: seq<Session.Call> := [
    KeyCall(SelectAll(KeyDown)), KeyCall(SelectAll(KeyUp)), KeyCall(Backspace(RawKeyDown)), KeyCall(Backspace(KeyUp))]

  lemma PrefixCalls(selector: Option<string>, clear: bool)
    ensures Calls(FocusSteps(selector)) == FocusCalls(selector)
    ensures Calls(ClearSteps(clear)) == if clear then ClearChord else []
  {
    var focus := FocusSteps(selector);
    if FocusGiven(selector) {
      FlatMapTwo(focus[0], focus[1], StepCall);
    }
    if clear {
      var c := ClearSequence;
      assert c == [c[0], c[1]] + [c[2], c[3], c[4], c[5]];
      FlatMapAppend([c[0], c[1]], [c[2], c[3], c[4], c[5]], StepCall);
      FlatMapTwo(c[0], c[1], StepCall);
      FlatMapFour(c[2], c[3], c[4], c[5], StepCall);
    }
  }

  /** Clearing is Meta+A down and up, a 50 ms pause, Backspace down and
      up, and another 50 ms pause; not clearing sends nothing. */
  lemma ClearChordOnWire()
    ensures ClearSteps(false) == []
    ensures |ClearSteps(true)| == 6 && ClearSteps(true)[2] == Sleep(50) && ClearSteps(true)[5] == Sleep(50)
    ensures Calls(ClearSteps(true)) == ClearChord
  {
    PrefixCalls(None, true);
  }

  /** The four chord commands as they appear on the wire: the select-all
      events carry modifier 4 (Meta), the backspace events no modifier,
      and none of them carries text. */
  lemma ClearChordParams()
    ensures |ClearChord| == 4
    ensures forall k :: 0 <= k < |ClearChord| ==>
      ClearChord[k].name == "Input.dispatchKeyEvent" && ClearChord[k].sessionId == None
    ensures ClearChord[0].params == map["type" := Str("keyDown"), "key" := Str("a"), "code" := Str("KeyA"),
                                        "windowsVirtualKeyCode" := Num(65), "modifiers" := Num(4)]
    ensures ClearChord[1].params == map["type" := Str("keyUp"), "key" := Str("a"), "code" := Str("KeyA"),
                                        "windowsVirtualKeyCode" := Num(65), "modifiers" := Num(4)]
    ensures ClearChord[2].params == map["type" := Str("rawKeyDown"), "key" := Str("Backspace"),
                                        "code" := Str("Backspace"), "windowsVirtualKeyCode" := Num(8)]
    ensures ClearChord[3].params == map["type" := Str("keyUp"), "key" := Str("Backspace"),
                                        "code" := Str("Backspace"), "windowsVirtualKeyCode" := Num(8)]
  {
    assert ClearChord[0].params == KeyParams(SelectAll(KeyDown));
    assert ClearChord[1].params == KeyParams(SelectAll(KeyUp));
    assert ClearChord[2].params == KeyParams(Backspace(RawKeyDown));
    assert ClearChord[3].params == KeyParams(Backspace(KeyUp));
  }

  /** The commands `cdp_type` writes: the focus evaluation when a selector
      is given, the four chord commands when clearing, then the key
      commands of every character's triplet in text order. */
  lemma TypeTraceCalls(text: string, selector: Option<string>, clear: bool)
    ensures Calls(TypeTrace(text, selector, clear)) == FocusCalls(selector) + (if clear then ClearChord else []) + Calls(CharTrace(text))
    ensures |Calls(TypeTrace(text, selector, clear))| == |FocusCalls(selector)| + ClearCount(clear) + 3 * |text|
  {
    FlatMapAppend(FocusSteps(selector) + ClearSteps(clear), CharTrace(text), StepCall);
    FlatMapAppend(FocusSteps(selector), ClearSteps(clear), StepCall);
    PrefixCalls(selector, clear);
    CharTraceCalls(text);
  }

  /** With a non-empty selector the focus command is one
      `Runtime.evaluate` of `document.querySelector('<selector>').focus()`;
      without one, or with an empty one, nothing is evaluated. */
  lemma FocusCallOnWire(selector: string)
    ensures selector != "" ==>
      (FocusCalls(Some(selector))
         == [Session.Call("Runtime.evaluate",
                          map["expression" := Str("document.querySelector('" + selector + "').focus()")], None)])
    ensures FocusCalls(Some("")) == [] && FocusCalls(None) == []
  {
  }

  /** On the wire, a triplet's events are typed `rawKeyDown` (special keys)
      or `keyDown` (every other character), then `char`, then `keyUp`. */
  lemma TripletTypesOnWire(c: char)
    ensures KeyParams(KeyEvents(c)[0])["type"] == Str(if c in SpecialKeys then "rawKeyDown" else "keyDown")
    ensures KeyParams(KeyEvents(c)[1])["type"] == Str("char")
    ensures KeyParams(KeyEvents(c)[2])["type"] == Str("keyUp")
  {
    if c in SpecialKeys {
      SpecialKeyTriplet(c);
    } else {
      PrintableKeyTriplet(c);
    }
  }

  /** Key events the clear sequence sends. */
  function ClearCount(clear: bool): nat {
    if clear then 4 else 0
  }

  /** The commands of a click: press, then release, at the same point. */
  lemma ClickCalls(x: Value, y: Value)
    ensures Calls(ClickTrace(x, y)) == [
      Session.Call("Input.dispatchMouseEvent", MouseParams(MousePressed, x, y), None),
      Session.Call("Input.dispatchMouseEvent", MouseParams(MouseReleased, x, y), None)]
    ensures Calls(ClickTrace(x, y))[0].params
         == map["type" := Str("mousePressed"), "x" := x, "y" := y, "button" := Str("left"), "clickCount" := Num(1)]
    ensures Calls(ClickTrace(x, y))[1].params
         == map["type" := Str("mouseReleased"), "x" := x, "y" := y, "button" := Str("left"), "clickCount" := Num(1)]
  {
    ClickTraceUnrolled(x, y);
    var t := ClickTrace(x, y);
    FlatMapFour(t[0], t[1], t[2], t[3], StepCall);
  }
}
