/** Whole-handler runs of a `!stream` command with a count of 2, for any
    URL, key and video path without spaces. */
module Scenarios {
  import opened Wrappers
  import opened Strings
  import opened Decimal
  import opened Notes
  import opened Attempts
  import opened Handler

  /** `!stream <url> <key> <source> 2` */
  function TwoRunsCommand(url: string, key: string, source: string): string {
    "!stream " + url + " " + key + " " + source + " 2"
  }

  /** The command splits into its five fields. */
  lemma TwoRunsFields(url: string, key: string, source: string)
    requires ' ' !in url && ' ' !in key && ' ' !in source
    ensures Split(TwoRunsCommand(url, key, source), ' ') == ["!stream", url, key, source, "2"]
  {
    var args := ["!stream", url, key, source, "2"];
    assert Join(args, ' ') == TwoRunsCommand(url, key, source) by {
      assert Join(args[4..], ' ') == "2";
      assert Join(args[3..], ' ') == source + " 2";
      assert Join(args[2..], ' ') == key + " " + source + " 2";
      assert Join(args[1..], ' ') == url + " " + key + " " + source + " 2";
    }
    SplitJoin(args, ' ');
  }

  /** The command is a `!stream` command with a count of 2. */
  lemma TwoRunsRequest(url: string, key: string, source: string)
    requires ' ' !in url && ' ' !in key && ' ' !in source
    ensures RequestOf(TwoRunsCommand(url, key, source)) == Some(StreamRequest(url, key, source, Some(2)))
  {
    var body := TwoRunsCommand(url, key, source);
    var args := ["!stream", url, key, source, "2"];
    TwoRunsFields(url, key, source);
    assert body[..7] == "!stream";
    assert args[4] == IntText(2) + [];
    ExplicitRepeatCount(args, 2, []);
  }

  /** Both runs end cleanly: start reply, two started/finished pairs in
      order, closing reply. */
  lemma TwoCleanRuns(url: string, key: string, source: string)
    requires ' ' !in url && ' ' !in key && ' ' !in source
    ensures RequestOf(TwoRunsCommand(url, key, source)) == Some(StreamRequest(url, key, source, Some(2)))
    ensures Response(TwoRunsCommand(url, key, source), true, [Ended, Ended]) ==
      Run([Reply(Starting(url, source, Some(2))),
           Chat(AttemptStarted(1, 2)), Chat(AttemptFinished(1, 2)),
           Chat(AttemptStarted(2, 2)), Chat(AttemptFinished(2, 2)),
           Reply(AllDone)], 2)
  {
    TwoRunsRequest(url, key, source);
    assert LoopFrom(1, 2, [Ended, Ended]) == Run([Chat(AttemptStarted(2, 2)), Chat(AttemptFinished(2, 2))], 2);
  }

  /** The first run fails after starting: one attempt only, its failure
      reported in the chat and as an error reply, then the closing reply;
      the second run never starts, whatever it would have done. */
  lemma FirstRunFails(url: string, key: string, source: string, error: string, second: Outcome)
    requires ' ' !in url && ' ' !in key && ' ' !in source
    ensures RequestOf(TwoRunsCommand(url, key, source)) == Some(StreamRequest(url, key, source, Some(2)))
    ensures Response(TwoRunsCommand(url, key, source), true, [FailedAfterStart(error), second]) ==
      Run([Reply(Starting(url, source, Some(2))),
           Chat(AttemptStarted(1, 2)), Chat(AttemptFailed(1, 2, error)), Reply(StreamingError(error)),
           Reply(AllDone)], 1)
  {
    TwoRunsRequest(url, key, source);
  }
}
