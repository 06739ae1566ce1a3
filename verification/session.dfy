/** The protocol session (`cdp_send`): build the outgoing command, then read
    incoming messages until the one carrying the same id arrives. The
    socket is replaced by the sequence of messages it delivers; ids are
    supplied by the caller instead of being read from the clock. */
module Session {
  import opened Prelude
  import opened Json

  /** A protocol message is a JSON object on the wire. */
  type Message = Fields

  /** The outgoing command. `params` and `sessionId` are attached only when
      truthy, so an empty parameter object and an empty session id are
      both left out (the source's default for each is falsy too). */
  function Command(id: int, name: string, params: Fields, sessionId: Option<string>): (m: Message)
    ensures m.Keys <= {"id", "method", "params", "sessionId"}
    ensures "id" in m && m["id"] == Num(id)
    ensures "method" in m && m["method"] == Str(name)
    ensures "params" in m <==> |params| > 0
    ensures "params" in m ==> m["params"] == Obj(params)
    ensures "sessionId" in m <==> sessionId.Some? && sessionId.value != ""
    ensures "sessionId" in m ==> m["sessionId"] == Str(sessionId.value)
  {
    var m := map["id" := Num(id), "method" := Str(name)];
    var m := if |params| > 0 then m["params" := Obj(params)] else m;
    if sessionId.Some? && sessionId.value != "" then m["sessionId" := Str(sessionId.value)] else m
  }

  /** What a peer reads back from a command. */
  datatype Sent = Sent(id: int, name: string, params: Fields, sessionId: Option<string>)

  function ReadCommand(m: Message): Option<Sent> {
    if "id" in m && m["id"].Num? && "method" in m && m["method"].Str? then
      var params := if "params" in m && m["params"].Obj? then m["params"].fields else map[];
      var sid := if "sessionId" in m && m["sessionId"].Str? then Some(m["sessionId"].s) else None;
      Some(Sent(m["id"].n, m["method"].s, params, sid))
    else None
  }

  /** Nothing of a command is lost on the wire except a falsy session id. */
  lemma CommandRoundTrip(id: int, name: string, params: Fields, sessionId: Option<string>)
    ensures ReadCommand(Command(id, name, params, sessionId))
         == Some(Sent(id, name, params, if sessionId.Some? && sessionId.value != "" then sessionId else None))
  {
  }

  // ---------------------------------------------------------------------
  // Correlation
  // ---------------------------------------------------------------------

  /** `response.get("id") == msg_id` */
  predicate Answers(m: Message, id: int) {
    "id" in m && m["id"] == Num(id)
  }

  datatype Reply = Returned(result: Value) | Raised(error: Value)

  /** An `error` field makes the answer a failure even beside a `result`;
      otherwise the result is returned, `{}` when absent. */
  function Interpret(m: Message): Reply {
    if "error" in m then Raised(m["error"])
    else Returned(if "result" in m then m["result"] else EmptyObject)
  }

  /** The outcome of waiting for an id: answered by the message at index
      `at`, or the stream ended first (the connection closed). */
  datatype Awaited = Answered(at: nat, reply: Reply) | Closed

  /** The receive loop of `cdp_send`. */
  function Await(stream: seq<Message>, id: int): (r: Awaited)
    ensures r.Answered? ==> r.at < |stream| && Answers(stream[r.at], id)
    ensures r.Answered? ==> forall j :: 0 <= j < r.at ==> !Answers(stream[j], id)
    ensures r.Answered? ==> r.reply == Interpret(stream[r.at])
    ensures r.Closed? <==> forall j :: 0 <= j < |stream| ==> !Answers(stream[j], id)
  {
    if |stream| == 0 then Closed
    else if Answers(stream[0], id) then Answered(0, Interpret(stream[0]))
    else
      match Await(stream[1..], id)
      case Closed => Closed
      case Answered(k, reply) => Answered(k + 1, reply)
  }

  /** An error answer is a failure even when it also carries a result. */
  lemma ErrorWinsOverResult(stream: seq<Message>, id: int, k: nat)
    requires k < |stream| && Answers(stream[k], id) && "error" in stream[k]
    requires forall j :: 0 <= j < k ==> !Answers(stream[j], id)
    ensures Await(stream, id) == Answered(k, Raised(stream[k]["error"]))
  {
  }

  /** Messages for other ids (protocol events, stale answers) that arrive
      first are skipped and do not change the answer. */
  lemma {:induction false} SkipsOtherIds(noise: seq<Message>, stream: seq<Message>, id: int)
    requires forall j :: 0 <= j < |noise| ==> !Answers(noise[j], id)
    ensures Await(noise + stream, id).Closed? == Await(stream, id).Closed?
    ensures Await(stream, id).Answered? ==>
      Await(noise + stream, id) == Answered(|noise| + Await(stream, id).at, Await(stream, id).reply)
  {
    if |noise| > 0 {
      assert (noise + stream)[0] == noise[0];
      assert (noise + stream)[1..] == noise[1..] + stream;
      forall j | 0 <= j < |noise[1..]|
        ensures !Answers(noise[1..][j], id)
      {
        assert noise[1..][j] == noise[j + 1];
      }
      SkipsOtherIds(noise[1..], stream, id);
    } else {
      assert noise + stream == stream;
    }
  }

  /** Whatever arrives after the answer is left unread. */
  lemma IgnoresLaterMessages(stream: seq<Message>, later: seq<Message>, id: int)
    requires Await(stream, id).Answered?
    ensures Await(stream + later, id) == Await(stream, id)
  {
    var k := Await(stream, id).at;
    assert (stream + later)[k] == stream[k];
    assert forall j :: 0 <= j < k ==> (stream + later)[j] == stream[j];
  }

  // ---------------------------------------------------------------------
  // A sequence of commands over one connection
  // ---------------------------------------------------------------------

  datatype Call = Call(name: string, params: Fields, sessionId: Option<string>)

  function Encode(call: Call, id: int): Message {
    Command(id, call.name, call.params, call.sessionId)
  }

  /** The end of a run of commands: all answered (with the unread rest of
      the stream), the first error answer, or the connection closing. */
  datatype Outcome =
    | Completed(results: seq<Value>, rest: seq<Message>)
    | Failed(error: Value)
    | Disconnected

  /** What a run wrote to the socket, and how it ended. */
  datatype Exchange = Exchange(sent: seq<Message>, outcome: Outcome)

  /** Issues the calls one after another, each awaiting its answer before
      the next is written; the first failure ends the run. */
  function SendAll(calls: seq<Call>, ids: seq<int>, stream: seq<Message>): (r: Exchange)
    requires |ids| == |calls|
    ensures |r.sent| <= |calls|
    ensures forall k :: 0 <= k < |r.sent| ==> r.sent[k] == Encode(calls[k], ids[k])
    ensures r.outcome.Completed? ==> |r.sent| == |calls| && |r.outcome.results| == |calls|
    ensures !r.outcome.Completed? ==> 1 <= |r.sent|
    decreases |calls|
  {
    if |calls| == 0 then Exchange([], Completed([], stream))
    else
      var first := Encode(calls[0], ids[0]);
      match Await(stream, ids[0])
      case Closed => Exchange([first], Disconnected)
      case Answered(_, Raised(e)) => Exchange([first], Failed(e))
      case Answered(k, Returned(v)) =>
        var tail := SendAll(calls[1..], ids[1..], stream[k + 1..]);
        var outcome :=
          match tail.outcome
          case Completed(vs, rest) => Completed([v] + vs, rest)
          case other => other;
        ConsPointwise(first, tail.sent, calls, ids, Encode);
        Exchange([first] + tail.sent, outcome)
  }

  /** Putting `f(xs[0], ys[0])` in front of a pointwise image of the tails
      gives a pointwise image of the whole. */
  lemma ConsPointwise<A, B, C>(head: C, rest: seq<C>, xs: seq<A>, ys: seq<B>, f: (A, B) -> C)
    requires 0 < |xs| && |ys| == |xs| && |rest| < |xs|
    requires head == f(xs[0], ys[0])
    requires forall k :: 0 <= k < |rest| ==> rest[k] == f(xs[1..][k], ys[1..][k])
    ensures forall k :: 0 <= k < |[head] + rest| ==> ([head] + rest)[k] == f(xs[k], ys[k])
  {
    forall k | 0 <= k < |[head] + rest|
      ensures ([head] + rest)[k] == f(xs[k], ys[k])
    {
      if k > 0 {
        assert ([head] + rest)[k] == rest[k - 1];
        assert xs[1..][k - 1] == xs[k] && ys[1..][k - 1] == ys[k];
      }
    }
  }

  /** The answer a well-behaved peer gives to the command with `id`. */
  function ResultFor(id: int, result: Value): Message {
    map["id" := Num(id), "result" := result]
  }

  function PromptAnswers(ids: seq<int>, results: seq<Value>): (s: seq<Message>)
    requires |results| == |ids|
    ensures |s| == |ids|
  {
    if |ids| == 0 then [] else [ResultFor(ids[0], results[0])] + PromptAnswers(ids[1..], results[1..])
  }

  /** When every command is answered in turn, the run completes with
      exactly those results, writes every command and leaves nothing
      unread. No uniqueness of ids is needed for that. */
  lemma {:induction false} PromptAnswersComplete(calls: seq<Call>, ids: seq<int>, results: seq<Value>)
    requires |ids| == |calls| && |results| == |calls|
    ensures SendAll(calls, ids, PromptAnswers(ids, results)).outcome == Completed(results, [])
    ensures |SendAll(calls, ids, PromptAnswers(ids, results)).sent| == |calls|
  {
    if |calls| > 0 {
      var stream := PromptAnswers(ids, results);
      assert Answers(stream[0], ids[0]);
      assert Await(stream, ids[0]) == Answered(0, Returned(results[0]));
      assert stream[1..] == PromptAnswers(ids[1..], results[1..]);
      PromptAnswersComplete(calls[1..], ids[1..], results[1..]);
      assert [results[0]] + results[1..] == results;
    }
  }

  // ---------------------------------------------------------------------
  // Reference reading of a stream: answered in turn, one command at a time
  // ---------------------------------------------------------------------

  /** The results, and the unread rest of the stream, after the first `k`
      commands were each answered with a result in turn; None once one of
      them was answered with an error or never answered. */
  function Turns(ids: seq<int>, stream: seq<Message>, k: nat): (r: Option<(seq<Value>, seq<Message>)>)
    requires k <= |ids|
    ensures r.Some? ==> |r.value.0| == k
  {
    if k == 0 then Some(([], stream))
    else
      match Turns(ids, stream, k - 1)
      case None => None
      case Some((vs, rest)) =>
        match Await(rest, ids[k - 1])
        case Answered(at, Returned(v)) => Some((vs + [v], rest[at + 1..]))
        case _ => None
  }

  /** What command `k` receives once every command before it was answered
      with a result. */
  function Turn(ids: seq<int>, stream: seq<Message>, k: nat): Awaited
    requires k < |ids| && Turns(ids, stream, k).Some?
  {
    Await(Turns(ids, stream, k).value.1, ids[k])
  }

  /** Answered in turn up to `k` means every command before `k` was
      answered with a result, and those results are the ones collected. */
  lemma {:induction false} TurnsPrefix(ids: seq<int>, stream: seq<Message>, k: nat, j: nat)
    requires j < k <= |ids| && Turns(ids, stream, k).Some?
    ensures Turns(ids, stream, j).Some?
    ensures Turn(ids, stream, j).Answered? && Turn(ids, stream, j).reply.Returned?
    ensures Turn(ids, stream, j).reply.result == Turns(ids, stream, k).value.0[j]
  {
    if j < k - 1 {
      TurnsPrefix(ids, stream, k - 1, j);
    }
  }

  /** A first command that is not answered with a result ends every
      reading in turn. */
  lemma {:induction false} TurnsStopAtHead(ids: seq<int>, stream: seq<Message>, k: nat)
    requires 0 < k <= |ids|
    requires !(Await(stream, ids[0]).Answered? && Await(stream, ids[0]).reply.Returned?)
    ensures Turns(ids, stream, k).None?
  {
    if k > 1 {
      TurnsStopAtHead(ids, stream, k - 1);
    }
  }

  /** After the first command is answered with `v` at index `at`, reading
      in turn continues on the rest of the ids and of the stream. */
  lemma {:induction false} TurnsShift(ids: seq<int>, stream: seq<Message>, k: nat, at: nat, v: Value)
    requires 0 < k <= |ids|
    requires Await(stream, ids[0]) == Answered(at, Returned(v))
    ensures Turns(ids, stream, k).Some? == Turns(ids[1..], stream[at + 1..], k - 1).Some?
    ensures Turns(ids, stream, k).Some? ==>
      Turns(ids, stream, k).value == ([v] + Turns(ids[1..], stream[at + 1..], k - 1).value.0,
                                      Turns(ids[1..], stream[at + 1..], k - 1).value.1)
  {
    if k > 1 {
      TurnsShift(ids, stream, k - 1, at, v);
      var t := Turns(ids[1..], stream[at + 1..], k - 2);
      if t.Some? {
        assert ids[1..][k - 2] == ids[k - 1];
        var (vs, rest) := t.value;
        match Await(rest, ids[k - 1])
        case Answered(a, Returned(w)) =>
          assert [v] + vs + [w] == [v] + (vs + [w]);
        case _ =>
      }
    } else {
      assert [] + [v] == [v] + [];
    }
  }

  /** How a run `x` relates to reading the stream in turn: it completes
      exactly when every command is answered with a result in turn, and
      then returns those results and the unread rest; otherwise it stops
      at a command answered with an error, or never answered, after every
      earlier command was answered with a result. */
  predicate TakesTurns(ids: seq<int>, stream: seq<Message>, x: Exchange) {
    && (x.outcome.Completed? <==> Turns(ids, stream, |ids|).Some?)
    && (x.outcome.Completed? ==> Turns(ids, stream, |ids|).value == (x.outcome.results, x.outcome.rest))
    && (!x.outcome.Completed? ==>
          && 1 <= |x.sent| <= |ids|
          && Turns(ids, stream, |x.sent| - 1).Some?
          && (x.outcome.Failed? ==>
                Turn(ids, stream, |x.sent| - 1).Answered? && Turn(ids, stream, |x.sent| - 1).reply == Raised(x.outcome.error))
          && (x.outcome.Disconnected? ==> Turn(ids, stream, |x.sent| - 1).Closed?))
  }

  /** A first command not answered with a result ends the run there. */
  lemma TakesTurnsAtHead(ids: seq<int>, stream: seq<Message>, x: Exchange)
    requires |ids| > 0
    requires !(Await(stream, ids[0]).Answered? && Await(stream, ids[0]).reply.Returned?)
    requires |x.sent| == 1
    requires x.outcome == (if Await(stream, ids[0]).Closed? then Disconnected else Failed(Await(stream, ids[0]).reply.error))
    ensures TakesTurns(ids, stream, x)
  {
    TurnsStopAtHead(ids, stream, |ids|);
  }

  /** After a first answer with a result, command `m` receives what
      command `m - 1` of the rest receives. */
  lemma TurnShift(ids: seq<int>, stream: seq<Message>, m: nat, at: nat, v: Value)
    requires 0 < m < |ids|
    requires Await(stream, ids[0]) == Answered(at, Returned(v))
    requires Turns(ids[1..], stream[at + 1..], m - 1).Some?
    ensures Turns(ids, stream, m).Some?
    ensures Turn(ids, stream, m) == Turn(ids[1..], stream[at + 1..], m - 1)
  {
    TurnsShift(ids, stream, m, at, v);
    assert ids[1..][m - 1] == ids[m];
  }

  /** A first command answered with `v` continues the run on the rest. */
  lemma TakesTurnsCons(ids: seq<int>, stream: seq<Message>, at: nat, v: Value, tail: Exchange, x: Exchange)
    requires |ids| > 0
    requires Await(stream, ids[0]) == Answered(at, Returned(v))
    requires TakesTurns(ids[1..], stream[at + 1..], tail)
    requires |x.sent| == 1 + |tail.sent|
    requires x.outcome == (match tail.outcome case Completed(vs, rest) => Completed([v] + vs, rest) case other => other)
    ensures TakesTurns(ids, stream, x)
  {
    var n := |ids|;
    assert |ids[1..]| == n - 1;
    TurnsShift(ids, stream, n, at, v);
    var whole := Turns(ids, stream, n);
    var rest := Turns(ids[1..], stream[at + 1..], |ids[1..]|);
    assert rest == Turns(ids[1..], stream[at + 1..], n - 1);
    assert whole.Some? == rest.Some?;
    assert tail.outcome.Completed? <==> rest.Some?;
    if tail.outcome.Completed? {
      assert rest == Some((tail.outcome.results, tail.outcome.rest));
      assert x.outcome == Completed([v] + tail.outcome.results, tail.outcome.rest);
      assert whole == Some(([v] + tail.outcome.results, tail.outcome.rest));
    } else {
      assert whole.None?;
      StoppedCons(ids, stream, at, v, tail, x);
    }
  }

  /** The stopped case of `TakesTurnsCons`: the rest stops at its command
      `m - 1`, which is command `m` of the whole run. */
  lemma StoppedCons(ids: seq<int>, stream: seq<Message>, at: nat, v: Value, tail: Exchange, x: Exchange)
    requires |ids| > 0
    requires Await(stream, ids[0]) == Answered(at, Returned(v))
    requires !tail.outcome.Completed? && 1 <= |tail.sent| <= |ids| - 1
    requires Turns(ids[1..], stream[at + 1..], |tail.sent| - 1).Some?
    requires |x.sent| == 1 + |tail.sent| && x.outcome == tail.outcome
    ensures Turns(ids, stream, |x.sent| - 1).Some?
    ensures Turn(ids, stream, |x.sent| - 1) == Turn(ids[1..], stream[at + 1..], |tail.sent| - 1)
  {
    TurnShift(ids, stream, |tail.sent|, at, v);
  }

  lemma {:induction false} SendAllTakesTurns(calls: seq<Call>, ids: seq<int>, stream: seq<Message>)
    requires |ids| == |calls|
    ensures TakesTurns(ids, stream, SendAll(calls, ids, stream))
    decreases |calls|
  {
    if |calls| > 0 {
      match Await(stream, ids[0])
      case Closed =>
        TakesTurnsAtHead(ids, stream, SendAll(calls, ids, stream));
      case Answered(_, Raised(e)) =>
        TakesTurnsAtHead(ids, stream, SendAll(calls, ids, stream));
      case Answered(at, Returned(v)) =>
        var tail := SendAll(calls[1..], ids[1..], stream[at + 1..]);
        var outcome := match tail.outcome case Completed(vs, rest) => Completed([v] + vs, rest) case other => other;
        var x := SendAll(calls, ids, stream);
        assert x == Exchange([Encode(calls[0], ids[0])] + tail.sent, outcome);
        SendAllTakesTurns(calls[1..], ids[1..], stream[at + 1..]);
        TakesTurnsCons(ids, stream, at, v, tail, x);
    }
  }

  /** A run that takes turns stops at the first command not answered with
      a result: it writes that command and every one before it, and fails
      with that command's error or as closed. */
  lemma StopsAtFirstUnreturned(ids: seq<int>, stream: seq<Message>, x: Exchange, k: nat)
    requires TakesTurns(ids, stream, x)
    requires k < |ids| && Turns(ids, stream, k).Some?
    requires !(Turn(ids, stream, k).Answered? && Turn(ids, stream, k).reply.Returned?)
    ensures |x.sent| == k + 1
    ensures x.outcome == (if Turn(ids, stream, k).Closed? then Disconnected else Failed(Turn(ids, stream, k).reply.error))
  {
    if Turns(ids, stream, |ids|).Some? {
      TurnsPrefix(ids, stream, |ids|, k);
    }
    var m := |x.sent| - 1;
    if m < k {
      TurnsPrefix(ids, stream, k, m);
    } else if m > k {
      TurnsPrefix(ids, stream, m, k);
    }
  }

  /** A completed run had every command answered with a result, in turn,
      and returns exactly those results. */
  lemma CompletedMeansReturned(ids: seq<int>, stream: seq<Message>, x: Exchange, j: nat)
    requires TakesTurns(ids, stream, x)
    requires j < |ids| && x.outcome.Completed?
    ensures Turns(ids, stream, j).Some?
    ensures Turn(ids, stream, j).Answered? && Turn(ids, stream, j).reply == Returned(x.outcome.results[j])
  {
    TurnsPrefix(ids, stream, |ids|, j);
  }

  /** The error answer a failing peer gives to the command with `id`. */
  function ErrorFor(id: int, error: Value): Message {
    map["id" := Num(id), "error" := error]
  }

  lemma {:induction false} PromptAnswersSnoc(ids: seq<int>, results: seq<Value>)
    requires |results| == |ids| > 0
    ensures PromptAnswers(ids, results)
         == PromptAnswers(ids[..|ids| - 1], results[..|ids| - 1]) + [ResultFor(ids[|ids| - 1], results[|ids| - 1])]
  {
    if |ids| > 1 {
      PromptAnswersSnoc(ids[1..], results[1..]);
      assert ids[1..][..|ids| - 2] == ids[..|ids| - 1][1..];
      assert results[1..][..|ids| - 2] == results[..|ids| - 1][1..];
    }
  }

  /** A stream that first answers commands `0 .. k-1` in turn with the
      results `rs` reads, in turn, as exactly those results followed by
      whatever comes next. */
  lemma {:induction false} AnsweredPrefixTurns(ids: seq<int>, rs: seq<Value>, tail: seq<Message>)
    requires |rs| <= |ids|
    ensures Turns(ids, PromptAnswers(ids[..|rs|], rs) + tail, |rs|) == Some((rs, tail))
  {
    var k := |rs|;
    var stream := PromptAnswers(ids[..k], rs) + tail;
    if k > 0 {
      var answer := ResultFor(ids[k - 1], rs[k - 1]);
      var after := [answer] + tail;
      PromptAnswersSnoc(ids[..k], rs);
      assert ids[..k][..k - 1] == ids[..k - 1];
      assert stream == PromptAnswers(ids[..k - 1], rs[..k - 1]) + after;
      AnsweredPrefixTurns(ids, rs[..k - 1], after);
      assert Turns(ids, stream, k - 1) == Some((rs[..k - 1], after));
      assert Answers(after[0], ids[k - 1]);
      assert Await(after, ids[k - 1]) == Answered(0, Returned(rs[k - 1]));
      assert after[1..] == tail;
      FrontLast(rs);
      assert Turns(ids, stream, k) == Some((rs[..k - 1] + [rs[k - 1]], after[0 + 1..]));
    } else {
      assert stream == tail;
    }
  }

  /** An error answer to command `k`, after commands `0 .. k-1` were each
      answered with a result, ends the run there: `k + 1` commands are
      written and the run fails with that error. */
  lemma ErrorAnswerStopsAt(calls: seq<Call>, ids: seq<int>, rs: seq<Value>, e: Value, later: seq<Message>)
    requires |ids| == |calls| && |rs| < |calls|
    ensures var x := SendAll(calls, ids, PromptAnswers(ids[..|rs|], rs) + [ErrorFor(ids[|rs|], e)] + later);
      |x.sent| == |rs| + 1 && x.outcome == Failed(e)
  {
    var k := |rs|;
    var tail := [ErrorFor(ids[k], e)] + later;
    var stream := PromptAnswers(ids[..k], rs) + tail;
    assert PromptAnswers(ids[..k], rs) + [ErrorFor(ids[k], e)] + later == stream;
    AnsweredPrefixTurns(ids, rs, tail);
    assert Answers(tail[0], ids[k]);
    assert Await(tail, ids[k]) == Answered(0, Raised(e));
    SendAllTakesTurns(calls, ids, stream);
    StopsAtFirstUnreturned(ids, stream, SendAll(calls, ids, stream), k);
  }

  /** If nothing after the answers to commands `0 .. k-1` answers command
      `k`, the run writes `k + 1` commands and fails as closed. */
  lemma UnansweredClosesAt(calls: seq<Call>, ids: seq<int>, rs: seq<Value>, later: seq<Message>)
    requires |ids| == |calls| && |rs| < |calls|
    requires forall j :: 0 <= j < |later| ==> !Answers(later[j], ids[|rs|])
    ensures var x := SendAll(calls, ids, PromptAnswers(ids[..|rs|], rs) + later);
      |x.sent| == |rs| + 1 && x.outcome == Disconnected
  {
    var k := |rs|;
    var stream := PromptAnswers(ids[..k], rs) + later;
    AnsweredPrefixTurns(ids, rs, later);
    assert Await(later, ids[k]).Closed?;
    SendAllTakesTurns(calls, ids, stream);
    StopsAtFirstUnreturned(ids, stream, SendAll(calls, ids, stream), k);
  }
}
