/** The chat message handler: `!ping`, `!stream` and `!stop`. A `!stream`
    command is split into fields, answered with a "Starting stream" reply,
    checked for its video file and then handed to the repeat loop. */
module Handler {
  import opened Wrappers
  import opened Strings
  import opened Decimal
  import opened Notes
  import opened Encoder
  import opened Attempts

  /** The branch of the handler a message body takes. */
  datatype Command = Ping | Stream(args: seq<string>) | Stop | Ignored

  /** Exact `!ping` first, then any body that starts with `!stream`, then
      exact `!stop`; anything else is ignored. */
  function Dispatch(body: string): (c: Command)
    ensures c.Ping? <==> body == "!ping"
    ensures c.Stream? <==> body != "!ping" && StartsWith(body, "!stream")
    ensures c.Stream? ==> c.args == Split(body, ' ')
    ensures c.Stop? <==> body == "!stop"
  {
    if body == "!ping" then Ping
    else if StartsWith(body, "!stream") then Stream(Split(body, ' '))
    else if body == "!stop" then Stop
    else Ignored
  }

  /** `args[4] || '1'`: a fifth field that is missing or empty reads as "1". */
  function CountField(args: seq<string>): (f: string)
    ensures f != ""
    ensures !(|args| >= 5 && args[4] != "") ==> f == "1"
    ensures |args| >= 5 && args[4] != "" ==> f == args[4]
  {
    if |args| >= 5 && args[4] != "" then args[4] else "1"
  }

  /** The fields of a `!stream` command; fewer than four fields is a usage
      error. Fields after the fifth are ignored. */
  function ParseArgs(args: seq<string>): (r: Option<StreamRequest>)
    ensures r.None? <==> |args| < 4
    ensures r.Some? ==> r.value.url == args[1] && r.value.key == args[2] && r.value.source == args[3]
    ensures r.Some? ==> r.value.count == ParseInt(CountField(args))
  {
    if |args| < 4 then None
    else Some(StreamRequest(args[1], args[2], args[3], ParseInt(CountField(args))))
  }

  /** The request a body carries, if it is a well-formed `!stream` command. */
  function RequestOf(body: string): Option<StreamRequest> {
    match Dispatch(body)
    case Stream(args) => ParseArgs(args)
    case _ => None
  }

  /** How many attempts the body could start at most. */
  function PlannedAttempts(body: string): nat {
    match RequestOf(body)
    case Some(req) => Planned(req.count)
    case None => 0
  }

  /** The handler's response to one message: its outbound messages in the
      order they are issued and the number of encoder runs it starts. */
  function Response(body: string, sourceExists: bool, outcomes: seq<Outcome>): Run
    requires PlannedAttempts(body) <= |outcomes|
  {
    match Dispatch(body)
    case Ping => Run([Reply(Pong)], 0)
    case Stop => Run([Reply(StopNotImplemented)], 0)
    case Ignored => Run([], 0)
    case Stream(args) =>
      match ParseArgs(args)
      case None => Run([Reply(Usage)], 0)
      case Some(req) => StreamReply(req, sourceExists, outcomes)
  }

  /** What a parsed `!stream` command sends and starts: the starting reply
      (sent before the video file is looked for), then either the not-found
      reply or the repeat loop with its closing reply. */
  function StreamReply(req: StreamRequest, sourceExists: bool, outcomes: seq<Outcome>): Run
    requires Planned(req.count) <= |outcomes|
  {
    var start := Reply(Starting(req.url, req.source, req.count));
    if !sourceExists then Run([start, Reply(NotFound(req.source))], 0)
    else
      var repeat := Repeat(req, outcomes);
      Run([start] + repeat.log, repeat.attempts)
  }

  /** Handles one message. `sourceExists` stands for the file-system check
      on the video path and `outcomes` for how each encoder run ends. */
  method HandleMessage(body: string, sourceExists: bool, outcomes: seq<Outcome>)
    returns (log: seq<Message>, runs: seq<Invocation>)
    requires PlannedAttempts(body) <= |outcomes|
    ensures log == Response(body, sourceExists, outcomes).log
    ensures |runs| == Response(body, sourceExists, outcomes).attempts
    ensures forall j :: 0 <= j < |runs| ==>
      RequestOf(body).Some? && runs[j] == EncoderRun(RequestOf(body).value.source, RequestOf(body).value.url, RequestOf(body).value.key)
  {
    log, runs := [], [];
    match Dispatch(body) {
      case Ping =>
        log := [Reply(Pong)];
      case Stop =>
        log := [Reply(StopNotImplemented)];
      case Ignored =>
      case Stream(args) =>
        var request := ParseArgs(args);
        if request.None? {
          log := [Reply(Usage)];
          return;
        }
        var req := request.value;
        log := [Reply(Starting(req.url, req.source, req.count))];
        if !sourceExists {
          log := log + [Reply(NotFound(req.source))];
          return;
        }
        var rest;
        rest, runs := RunAttempts(req, outcomes);
        log := log + rest;
    }
  }

  /** `!ping` and `!stop` get their one fixed reply, other non-`!stream`
      bodies get nothing, and none of them starts an encoder run. */
  lemma FixedReplies(body: string, sourceExists: bool, outcomes: seq<Outcome>)
    requires PlannedAttempts(body) <= |outcomes|
    ensures body == "!ping" ==> Response(body, sourceExists, outcomes) == Run([Reply(Pong)], 0)
    ensures body == "!stop" ==> Response(body, sourceExists, outcomes) == Run([Reply(StopNotImplemented)], 0)
    ensures !StartsWith(body, "!stream") && body != "!ping" && body != "!stop" ==>
      Response(body, sourceExists, outcomes) == Run([], 0)
  {
  }

  /** A `!stream` body with fewer than three spaces gets exactly the usage
      reply and nothing else; no other body gets that response. */
  lemma UsageReply(body: string, sourceExists: bool, outcomes: seq<Outcome>)
    requires PlannedAttempts(body) <= |outcomes|
    ensures Response(body, sourceExists, outcomes) == Run([Reply(Usage)], 0) <==>
      body != "!ping" && StartsWith(body, "!stream") && Occurrences(body, ' ') < 3
  {
    var r := Response(body, sourceExists, outcomes);
    SplitFields(body, ' ');
    match RequestOf(body)
    case None =>
    case Some(req) =>
      if sourceExists {
        assert r.log[0] == Reply(Starting(req.url, req.source, req.count));
      } else {
        assert |r.log| == 2;
      }
  }

  /** A missing or empty count field means one attempt. */
  lemma DefaultRepeatCount(args: seq<string>)
    requires |args| == 4 || (|args| >= 5 && args[4] == "")
    ensures ParseArgs(args).value.count == Some(1)
    ensures Planned(ParseArgs(args).value.count) == 1
  {
    assert CountField(args) == "1";
    assert Unsigned("1") == "1";
    assert DigitRun("1") == 1 by {
      assert "1"[1..] == [];
    }
    assert "1"[..1] == "1";
    assert DigitsValue("1") == 1 by {
      assert "1"[..0] == [];
    }
  }

  /** A count field holding a decimal integer, possibly followed by text
      that does not start with a digit, is read as that integer. */
  lemma ExplicitRepeatCount(args: seq<string>, count: int, rest: string)
    requires |args| >= 5 && args[4] == IntText(count) + rest
    requires rest == [] || !IsDigit(rest[0])
    ensures ParseArgs(args).value.count == Some(count)
  {
    ParseIntText(count, rest);
  }

  /** A `!stream` command whose video file is missing gets the starting
      reply and the not-found reply, and no attempt runs; the closing reply
      is not sent. */
  lemma MissingSource(req: StreamRequest, outcomes: seq<Outcome>)
    requires Planned(req.count) <= |outcomes|
    ensures StreamReply(req, false, outcomes) ==
      Run([Reply(Starting(req.url, req.source, req.count)), Reply(NotFound(req.source))], 0)
    ensures Reply(AllDone) !in StreamReply(req, false, outcomes).log
  {
  }

  /** A parsed `!stream` command always gets the starting reply first. The
      closing reply is sent exactly when the video file exists, and then it
      comes last; runs start only then, and never more than the count allows. */
  lemma StreamReplyShape(req: StreamRequest, sourceExists: bool, outcomes: seq<Outcome>)
    requires Planned(req.count) <= |outcomes|
    ensures var r := StreamReply(req, sourceExists, outcomes);
      |r.log| >= 2 && r.log[0] == Reply(Starting(req.url, req.source, req.count)) &&
      r.attempts <= Planned(req.count) &&
      (!sourceExists ==> r.attempts == 0) &&
      (sourceExists ==> r.log[|r.log| - 1] == Reply(AllDone)) &&
      (Reply(AllDone) in r.log <==> sourceExists)
  {
    if sourceExists {
      LoopReached(req, outcomes);
    } else {
      MissingSource(req, outcomes);
    }
  }

  /** Over all message bodies: runs start only for a well-formed `!stream`
      command whose file exists, never more than its count allows, and the
      closing reply is sent exactly in that case. */
  lemma ResponseShape(body: string, sourceExists: bool, outcomes: seq<Outcome>)
    requires PlannedAttempts(body) <= |outcomes|
    ensures var r := Response(body, sourceExists, outcomes);
      r.attempts <= PlannedAttempts(body) &&
      (r.attempts > 0 ==> RequestOf(body).Some? && sourceExists) &&
      (Reply(AllDone) in r.log <==> RequestOf(body).Some? && sourceExists)
  {
    match RequestOf(body)
    case None =>
    case Some(req) =>
      StreamReplyShape(req, sourceExists, outcomes);
  }

  /** Once the loop is reached, the log opens with the starting reply, ends
      with the closing reply and holds the closing reply nowhere else; the
      messages in between are those of the attempts, at most the count of
      them, and none at all when the count is not positive or not a number. */
  lemma LoopReached(req: StreamRequest, outcomes: seq<Outcome>)
    requires Planned(req.count) <= |outcomes|
    ensures var r := StreamReply(req, true, outcomes);
      var n := Planned(req.count);
      |r.log| >= 2 &&
      r.log[0] == Reply(Starting(req.url, req.source, req.count)) &&
      r.log[|r.log| - 1] == Reply(AllDone) &&
      Reply(AllDone) !in r.log[..|r.log| - 1] &&
      r.log[1..|r.log| - 1] == LoopFrom(0, n, outcomes).log &&
      r.attempts == LoopFrom(0, n, outcomes).attempts <= n &&
      (n == 0 ==> r.log == [Reply(Starting(req.url, req.source, req.count)), Reply(AllDone)])
  {
    var n := Planned(req.count);
    var loop := LoopFrom(0, n, outcomes);
    var log := [Reply(Starting(req.url, req.source, req.count))] + loop.log + [Reply(AllDone)];
    ReplyAroundLoop(req, outcomes, loop.log, loop.attempts);
    assert Reply(AllDone) !in loop.log by {
      LoopMessagesInOrder(0, n, outcomes);
    }
    assert log[..|log| - 1] == [log[0]] + loop.log;
    assert log[1..|log| - 1] == loop.log;
  }

  /** With every encoder run ending cleanly, a `!stream` command runs the
      full count of attempts, reports each as started and then finished in
      index order, and closes with the closing reply. */
  lemma AllAttemptsEnd(req: StreamRequest, outcomes: seq<Outcome>)
    requires Planned(req.count) <= |outcomes|
    requires forall j :: 0 <= j < Planned(req.count) ==> outcomes[j].Ended?
    ensures var n := Planned(req.count);
      StreamReply(req, true, outcomes) ==
        Run([Reply(Starting(req.url, req.source, req.count))] + CleanRuns(1, n, n) + [Reply(AllDone)], n)
  {
    LoopAllEnded(0, Planned(req.count), outcomes);
  }

  /** When run `k + 1` is the first to fail, exactly `k + 1` attempts run:
      the first `k` report themselves as started and finished, the failed
      one sends its messages, which end with its "failed" message and one
      error reply, and the closing reply follows. */
  lemma FirstFailureStops(req: StreamRequest, outcomes: seq<Outcome>, k: nat)
    requires k < Planned(req.count) <= |outcomes|
    requires forall j :: 0 <= j < k ==> outcomes[j].Ended?
    requires outcomes[k].Failed()
    ensures var n := Planned(req.count);
      StreamReply(req, true, outcomes) ==
        Run([Reply(Starting(req.url, req.source, req.count))] + CleanRuns(1, k, n) +
            AttemptMessages(k + 1, n, outcomes[k]) + [Reply(AllDone)], k + 1)
    ensures var r := StreamReply(req, true, outcomes);
      var e := outcomes[k].error;
      |r.log| == 2 * k + (if outcomes[k].FailedAfterStart? then 5 else 4) &&
      (outcomes[k].FailedAfterStart? ==> r.log[|r.log| - 4] == Chat(AttemptStarted(k + 1, Planned(req.count)))) &&
      r.log[|r.log| - 3] == Chat(AttemptFailed(k + 1, Planned(req.count), e)) &&
      r.log[|r.log| - 2] == Reply(StreamingError(e)) &&
      r.log[|r.log| - 1] == Reply(AllDone)
  {
    var n := Planned(req.count);
    var start := Reply(Starting(req.url, req.source, req.count));
    var clean, last := CleanRuns(1, k, n), AttemptMessages(k + 1, n, outcomes[k]);
    LoopFirstFailure(0, n, outcomes, k);
    ReplyAroundLoop(req, outcomes, clean + last, k + 1);
    assert [start] + (clean + last) + [Reply(AllDone)] == [start] + clean + last + [Reply(AllDone)];
    FailureTail([start] + clean, k + 1, n, outcomes[k]);
  }

  /** Once the file is found, the reply is the loop's log between the
      starting reply and the closing reply. */
  lemma ReplyAroundLoop(req: StreamRequest, outcomes: seq<Outcome>, loop: seq<Message>, attempts: nat)
    requires Planned(req.count) <= |outcomes|
    requires LoopFrom(0, Planned(req.count), outcomes) == Run(loop, attempts)
    ensures StreamReply(req, true, outcomes) ==
      Run([Reply(Starting(req.url, req.source, req.count))] + loop + [Reply(AllDone)], attempts)
  {
  }

  /** A failed attempt followed by the closing reply ends a log with the
      "failed" message, the error reply and the closing reply. */
  lemma FailureTail(head: seq<Message>, index: nat, total: nat, o: Outcome)
    requires o.Failed()
    ensures var log := head + AttemptMessages(index, total, o) + [Reply(AllDone)];
      |log| == |head| + (if o.FailedAfterStart? then 4 else 3) &&
      (o.FailedAfterStart? ==> log[|log| - 4] == Chat(AttemptStarted(index, total))) &&
      log[|log| - 3] == Chat(AttemptFailed(index, total, o.error)) &&
      log[|log| - 2] == Reply(StreamingError(o.error)) &&
      log[|log| - 1] == Reply(AllDone)
  {
    LastMessages(head, AttemptMessages(index, total, o), Reply(AllDone));
  }

  /** Where the last messages of `last` land once `closing` follows it. */
  lemma LastMessages(head: seq<Message>, last: seq<Message>, closing: Message)
    requires |last| >= 2
    ensures var log := head + last + [closing];
      |log| == |head| + |last| + 1 &&
      log[|log| - 3] == last[|last| - 2] && log[|log| - 2] == last[|last| - 1] && log[|log| - 1] == closing &&
      (|last| >= 3 ==> log[|log| - 4] == last[|last| - 3])
  {
  }

}
