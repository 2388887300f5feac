/** The repeat loop of the `!stream` command: up to `repeatCount` encoder
    runs, one after the other, each reported in the chat, stopping at the
    first run that fails, followed by one closing reply. */
module Attempts {
  import opened Wrappers
  import opened Notes
  import opened Encoder

  /** How one encoder run ends, as the handler observes it. */
  datatype Outcome =
    | Ended                          // 'start', then 'end'
    | FailedAfterStart(error: string) // 'start', then 'error'
    | FailedToStart(error: string)    // 'error' with no 'start' (the process did not launch)
  {
    predicate Failed() {
      !Ended?
    }
  }

  /** The arguments of a `!stream` command: server URL, stream key, video
      source and the parsed repeat count (`None` for `NaN`). */
  datatype StreamRequest = StreamRequest(url: string, key: string, source: string, count: Option<int>)

  /** The loop test `i < repeatCount`; every comparison with `NaN` is false. */
  predicate Below(i: int, count: Option<int>): (b: bool)
    ensures count.None? ==> !b
    ensures count.Some? ==> (b <==> i < count.value)
  {
    count.Some? && i < count.value
  }

  /** How many iterations the loop test admits. */
  function Planned(count: Option<int>): (n: nat)
    ensures forall i: nat :: Below(i, count) <==> i < n
    ensures count == Some(n) || n == 0
  {
    if count.Some? && count.value > 0 then count.value else 0
  }

  /** The messages attempt `index` of `total` sends for the given outcome. */
  function AttemptMessages(index: nat, total: nat, o: Outcome): (ms: seq<Message>)
    ensures |ms| >= 2 && AttemptOf(ms[0]) == Some(index)
  {
    match o
    case Ended =>
      [Chat(AttemptStarted(index, total)), Chat(AttemptFinished(index, total))]
    case FailedAfterStart(e) =>
      [Chat(AttemptStarted(index, total)), Chat(AttemptFailed(index, total, e)), Reply(StreamingError(e))]
    case FailedToStart(e) =>
      [Chat(AttemptFailed(index, total, e)), Reply(StreamingError(e))]
  }

  /** What a run of the loop produces: the messages in the order they are
      issued, and how many encoder runs were started. */
  datatype Run = Run(log: seq<Message>, attempts: nat)

  /** The loop from 0-based iteration `i` on, for `n` planned iterations. */
  function LoopFrom(i: nat, n: nat, outcomes: seq<Outcome>): (r: Run)
    requires i <= n <= |outcomes|
    ensures i <= r.attempts <= n
    decreases n - i
  {
    if i == n then Run([], i)
    else
      var step := AttemptMessages(i + 1, n, outcomes[i]);
      if outcomes[i].Failed() then Run(step, i + 1)
      else
        var rest := LoopFrom(i + 1, n, outcomes);
        Run(step + rest.log, rest.attempts)
  }

  /** The loop and the closing reply that follows it, whatever the outcomes. */
  function Repeat(req: StreamRequest, outcomes: seq<Outcome>): (r: Run)
    requires Planned(req.count) <= |outcomes|
    ensures |r.log| >= 1 && r.log[|r.log| - 1] == Reply(AllDone)
    ensures r.attempts <= Planned(req.count)
  {
    var loop := LoopFrom(0, Planned(req.count), outcomes);
    Run(loop.log + [Reply(AllDone)], loop.attempts)
  }

  /** One attempt: the encoder's 'start' handler posts "started", its
      'end' handler posts "finished", its 'error' handler posts "failed" and
      the surrounding `catch` replies with the error. `failed` tells the
      caller to leave the loop. */
  method RunOne(index: nat, total: nat, o: Outcome) returns (msgs: seq<Message>, failed: bool)
    ensures msgs == AttemptMessages(index, total, o)
    ensures failed == o.Failed()
  {
    msgs := [];
    if !o.FailedToStart? {
      msgs := msgs + [Chat(AttemptStarted(index, total))];
    }
    match o {
      case Ended =>
        msgs := msgs + [Chat(AttemptFinished(index, total))];
        failed := false;
      case FailedAfterStart(e) =>
        msgs := msgs + [Chat(AttemptFailed(index, total, e))];
        msgs := msgs + [Reply(StreamingError(e))];
        failed := true;
      case FailedToStart(e) =>
        msgs := msgs + [Chat(AttemptFailed(index, total, e))];
        msgs := msgs + [Reply(StreamingError(e))];
        failed := true;
    }
  }

  /** Runs the attempts as the handler does: a counter, a growing message
      log, and a `break` out of the loop on the first failure. */
  method RunAttempts(req: StreamRequest, outcomes: seq<Outcome>) returns (log: seq<Message>, runs: seq<Invocation>)
    requires Planned(req.count) <= |outcomes|
    ensures log == Repeat(req, outcomes).log
    ensures |runs| == Repeat(req, outcomes).attempts
    ensures forall j :: 0 <= j < |runs| ==> runs[j] == EncoderRun(req.source, req.url, req.key)
  {
    ghost var n := Planned(req.count);
    ghost var whole := LoopFrom(0, n, outcomes);
    log, runs := [], [];
    var i: nat := 0;
    while Below(i, req.count)
      invariant i <= n
      invariant |runs| == i
      invariant forall j :: 0 <= j < i ==> runs[j] == EncoderRun(req.source, req.url, req.key)
      invariant log + LoopFrom(i, n, outcomes).log == whole.log
      invariant LoopFrom(i, n, outcomes).attempts == whole.attempts
      decreases n - i
    {
      runs := runs + [EncoderRun(req.source, req.url, req.key)];
      var msgs, failed := RunOne(i + 1, req.count.value, outcomes[i]);
      ghost var before := log;
      log := log + msgs;
      if failed {
        break;
      }
      assert log + LoopFrom(i + 1, n, outcomes).log == before + LoopFrom(i, n, outcomes).log;
      i := i + 1;
    }
    log := log + [Reply(AllDone)];
  }

  /** An attempt posts "started" first exactly when its process launched,
      and a clean attempt is "started" then "finished"; a failed one posts
      one more message after launching than without. */
  lemma AttemptMessagesOpening(index: nat, total: nat, o: Outcome)
    ensures var ms := AttemptMessages(index, total, o);
      |ms| == (if o.FailedAfterStart? then 3 else 2) &&
      (ms[0] == Chat(AttemptStarted(index, total)) <==> !o.FailedToStart?) &&
      (o.Ended? ==> ms[1] == Chat(AttemptFinished(index, total)))
  {
  }

  /** Every message of an attempt names that attempt, except the error
      reply that closes a failed one, right after its "failed" message. */
  lemma AttemptMessagesShape(index: nat, total: nat, o: Outcome)
    ensures var ms := AttemptMessages(index, total, o);
      (forall p :: 0 <= p < |ms| ==>
         if ms[p].note.StreamingError? then o.Failed() && p == |ms| - 1 && ms[p] == Reply(StreamingError(o.error))
         else AttemptOf(ms[p]) == Some(index)) &&
      (o.Failed() ==> ms[|ms| - 2..] == [Chat(AttemptFailed(index, total, o.error)), Reply(StreamingError(o.error))])
  {
  }

  /** The log of `count` clean runs numbered from `first`, out of `total`:
      each reported as started, then finished. */
  function CleanRuns(first: nat, count: nat, total: nat): (ms: seq<Message>)
    ensures |ms| == 2 * count
    decreases count
  {
    if count == 0 then []
    else [Chat(AttemptStarted(first, total)), Chat(AttemptFinished(first, total))] + CleanRuns(first + 1, count - 1, total)
  }

  /** Position `2j` of the clean-run log is the "started" message of run
      `first + j` and position `2j + 1` its "finished" message. */
  lemma {:induction false} CleanRunsAt(first: nat, count: nat, total: nat, p: nat)
    requires p < 2 * count
    ensures CleanRuns(first, count, total)[p] ==
      Chat(if p % 2 == 0 then AttemptStarted(first + p / 2, total) else AttemptFinished(first + p / 2, total))
    decreases count
  {
    if p >= 2 {
      CleanRunsAt(first + 1, count - 1, total, p - 2);
      assert (p - 2) % 2 == p % 2 && (p - 2) / 2 == p / 2 - 1;
    }
  }

  /** When every run ends cleanly, all planned attempts run, in order, each
      with one "started" and one "finished" message. */
  lemma {:induction false} LoopAllEnded(i: nat, n: nat, outcomes: seq<Outcome>)
    requires i <= n <= |outcomes|
    requires forall j :: i <= j < n ==> outcomes[j].Ended?
    ensures LoopFrom(i, n, outcomes) == Run(CleanRuns(i + 1, n - i, n), n)
    decreases n - i
  {
    if i < n {
      LoopAllEnded(i + 1, n, outcomes);
    }
  }

  /** When run `k` is the first to fail, exactly `k + 1` attempts run: the
      ones before it are reported as started and finished, and the log ends
      with the failed attempt's messages. */
  lemma {:induction false} LoopFirstFailure(i: nat, n: nat, outcomes: seq<Outcome>, k: nat)
    requires i <= k < n <= |outcomes|
    requires forall j :: i <= j < k ==> outcomes[j].Ended?
    requires outcomes[k].Failed()
    ensures LoopFrom(i, n, outcomes) ==
      Run(CleanRuns(i + 1, k - i, n) + AttemptMessages(k + 1, n, outcomes[k]), k + 1)
    decreases k - i
  {
    if i == k {
      assert CleanRuns(i + 1, 0, n) + AttemptMessages(k + 1, n, outcomes[k]) == AttemptMessages(k + 1, n, outcomes[k]);
    } else {
      LoopFirstFailure(i + 1, n, outcomes, k);
      CleanStep(i, n, outcomes, k - i, AttemptMessages(k + 1, n, outcomes[k]), k + 1);
    }
  }

  /** A clean run in front of a loop whose log is `count - 1` clean runs
      followed by `tail` gives a log of `count` clean runs followed by `tail`. */
  lemma CleanStep(i: nat, n: nat, outcomes: seq<Outcome>, count: nat, tail: seq<Message>, attempts: nat)
    requires i < n <= |outcomes| && count >= 1 && outcomes[i].Ended?
    requires LoopFrom(i + 1, n, outcomes) == Run(CleanRuns(i + 2, count - 1, n) + tail, attempts)
    ensures LoopFrom(i, n, outcomes) == Run(CleanRuns(i + 1, count, n) + tail, attempts)
  {
    var head := [Chat(AttemptStarted(i + 1, n)), Chat(AttemptFinished(i + 1, n))];
    var clean := CleanRuns(i + 2, count - 1, n);
    assert head + (clean + tail) == (head + clean) + tail;
  }

  /** No attempt runs after one that failed. */
  lemma {:induction false} LoopNoAttemptAfterFailure(i: nat, n: nat, outcomes: seq<Outcome>, j: nat)
    requires i <= j < n <= |outcomes|
    requires outcomes[j].Failed()
    ensures LoopFrom(i, n, outcomes).attempts <= j + 1
    decreases j - i
  {
    if i < j && !outcomes[i].Failed() {
      LoopNoAttemptAfterFailure(i + 1, n, outcomes, j);
    }
  }

  /** Every message of `log` names an attempt in `lo + 1 .. hi`, except an
      error reply, which can only come last. */
  ghost predicate Belongs(log: seq<Message>, lo: nat, hi: nat) {
    forall p :: 0 <= p < |log| ==>
      if log[p].note.StreamingError? then p == |log| - 1
      else AttemptOf(log[p]).Some? && lo < AttemptOf(log[p]).value <= hi
  }

  /** Along `log`, the attempt a message names never goes down. */
  ghost predicate InOrder(log: seq<Message>) {
    forall p, q :: 0 <= p < q < |log| && AttemptOf(log[p]).Some? && AttemptOf(log[q]).Some? ==>
      AttemptOf(log[p]).value <= AttemptOf(log[q]).value
  }

  lemma BelongsPrepend(step: seq<Message>, rest: seq<Message>, lo: nat, hi: nat)
    requires forall p :: 0 <= p < |step| ==> AttemptOf(step[p]) == Some(lo + 1)
    requires lo + 1 <= hi && Belongs(rest, lo + 1, hi) && InOrder(rest)
    ensures Belongs(step + rest, lo, hi) && InOrder(step + rest)
  {
    var log := step + rest;
    assert forall p :: |step| <= p < |log| ==> log[p] == rest[p - |step|];
    forall p, q | 0 <= p < q < |log| && AttemptOf(log[p]).Some? && AttemptOf(log[q]).Some?
      ensures AttemptOf(log[p]).value <= AttemptOf(log[q]).value
    {
      if q >= |step| && p >= |step| {
        assert log[p] == rest[p - |step|] && log[q] == rest[q - |step|];
      }
    }
  }

  /** Every message of the loop belongs to an attempt that ran, or is the
      error reply, which can only come last; and attempts are reported in
      increasing order. */
  lemma {:induction false} LoopMessagesInOrder(i: nat, n: nat, outcomes: seq<Outcome>)
    requires i <= n <= |outcomes|
    ensures Belongs(LoopFrom(i, n, outcomes).log, i, LoopFrom(i, n, outcomes).attempts)
    ensures InOrder(LoopFrom(i, n, outcomes).log)
    decreases n - i
  {
    if i < n {
      var step := AttemptMessages(i + 1, n, outcomes[i]);
      if outcomes[i].Failed() {
        assert LoopFrom(i, n, outcomes) == Run(step, i + 1);
        StepInOrder(i + 1, n, outcomes[i]);
      } else {
        var rest := LoopFrom(i + 1, n, outcomes);
        assert LoopFrom(i, n, outcomes) == Run(step + rest.log, rest.attempts);
        LoopMessagesInOrder(i + 1, n, outcomes);
        AttemptMessagesShape(i + 1, n, outcomes[i]);
        assert forall p :: 0 <= p < |step| ==> AttemptOf(step[p]) == Some(i + 1);
        BelongsPrepend(step, rest.log, i, rest.attempts);
      }
    }
  }

  lemma StepInOrder(index: nat, total: nat, o: Outcome)
    requires index >= 1
    ensures Belongs(AttemptMessages(index, total, o), index - 1, index)
    ensures InOrder(AttemptMessages(index, total, o))
  {
    AttemptMessagesShape(index, total, o);
  }
}
