# WhatsApp RTMPS bot: the `!stream` handler

The bot listens to chat messages. `!ping` is answered with `pong` and `!stop` with a fixed "not yet
implemented" reply. `!stream <RTMPS_URL> <STREAM_KEY> <VIDEO_PATH> [REPEAT_COUNT]` runs an encoder up to
`REPEAT_COUNT` times, one run after another. Each run transcodes the video with a fixed profile and
publishes it to `<RTMPS_URL>/<STREAM_KEY>`. The bot reports each run in the chat, stops at the first
failure, and closes with a final reply.

This project models that message handler (`index.js`, lines 26-102). One message is handled
deterministically. Its inputs are:

- the message body;
- whether the video file exists;
- the outcome of each encoder run:
  - `Ended`: started, then finished;
  - `FailedAfterStart(error)`: started, then failed;
  - `FailedToStart(error)`: failed before it started.

Its outputs are:

- the outbound messages, in the order the handler issues them. Each is tagged `Reply` (a reply quoting the
  command) or `Chat` (posted to the chat).
- the encoder runs it starts, with their input, options and destination.

Throughout, a "run" (or attempt) is one iteration of the loop, that is, one call to the encoder. A run
whose process fails to launch (`FailedToStart`) still counts as a run that started.

Modules:

- `Strings` (`strings.dfy`): JavaScript's `split` on one character and its inverse `Join`.
- `Decimal` (`decimal.dfy`): how a template string renders an integer, and `parseInt` on the count field.
- `Encoder` (`encoder.dfy`): the eleven output options and the `url + "/" + key` destination.
- `Notes` (`notes.dfy`): the outbound messages and the exact text of each.
- `Attempts` (`attempts.dfy`): the repeat loop. `LoopFrom` and `Repeat` specify it. `RunAttempts` is the
  imperative loop with its counter, its growing log and its `break`, proved against them.
- `Handler` (`handler.dfy`): dispatch, argument extraction, the reply sent before the file check, and
  `HandleMessage`, which puts the whole handler together.
- `Scenarios` (`scenarios.dfy`): two complete runs of `!stream <url> <key> <source> 2`, for any
  space-free URL, key and path.

The code has no job registry, no cancellation and no job states, so the model has none either. `!stop`
is a stub in the code. Three behaviours of the code are easy to miss, and the model keeps all three:

- the "Starting stream" reply is sent before the file is looked for;
- a count that is zero, negative or not a number is accepted, the reply shows it (`NaN` for not a
  number), and no run starts;
- the closing reply is sent whenever the loop is reached, even when no run starts.

## Model

| member | source | states |
|---|---|---|
| Handler.ResponseShape | index.js:28-101 | states what `Handler.Response`, the model of the whole handler, promises for every body: runs start only for a well-formed `!stream` command whose file exists, and never more than its count allows. The closing reply is sent exactly in that case. |
| Handler.StreamReplyShape | index.js:43-96 | states what `Handler.StreamReply` promises for a parsed `!stream` command. The starting reply always comes first. The closing reply is sent iff the file exists, and then it comes last. Runs start only then, at most as many as the count allows. The exact logs are given by MissingSource, LoopReached, AllAttemptsEnd and FirstFailureStops. |
| Handler.Dispatch | index.js:28-98 | the handler takes the ping branch iff the body is exactly `!ping`. It takes the stream branch iff the body is not `!ping` and starts with `!stream`; the arguments are then the body split on single spaces. It takes the stop branch iff the body is exactly `!stop`. |
| Handler.FixedReplies | index.js:28-101 | `!ping` gets exactly one `pong` reply and `!stop` exactly the "not yet implemented" reply. A body in none of the three branches gets no message. None of them starts a run. |
| Handler.UsageReply | index.js:30-36 | the response is exactly the usage reply, with no run, iff the body is a `!stream` body with fewer than three spaces (fewer than four fields) |
| Handler.ParseArgs | index.js:32-41 | fewer than four fields is the usage error (`None`). Otherwise URL, key and source are fields 1-3, and the count is `parseInt` of the count field. |
| Handler.CountField | index.js:41 | `args[4] \|\| '1'`: it is the fifth field whenever that field exists and is not empty, and "1" otherwise |
| Handler.DefaultRepeatCount | index.js:41 | with exactly four fields, or an empty fifth field, the count is 1 and one run is planned |
| Handler.ExplicitRepeatCount | index.js:41 | a fifth field holding a rendered integer, possibly followed by text that does not start with a digit, gives that integer as the count |
| Handler.MissingSource | index.js:43-52 | when the file is missing the log is exactly the starting reply, then the not-found reply. No run starts and no closing reply is sent. |
| Handler.LoopReached | index.js:43-96 | once the file exists the log opens with the starting reply. It ends with the closing reply, which appears nowhere else. What lies between is exactly the loop's log. At most the planned number of runs start. A count that is not positive or not a number gives just the starting and closing replies. |
| Handler.AllAttemptsEnd | index.js:54-96 | when every run ends cleanly, all N planned runs start. Each reports "started" then "finished", in index order, and the closing reply follows. |
| Handler.FirstFailureStops | index.js:76-96 | when run k+1 is the first to fail, exactly k+1 runs start, counting a failed run whose process did not launch, and the first k report clean. The log has exactly 2k+4 messages, or 2k+5 when that run's process launched, in which case its "started" message comes next. The log ends with that run's "failed" message, one error reply and the closing reply. |
| Handler.HandleMessage | index.js:26-102 | the imperative handler sends exactly the log `Response` specifies and starts exactly its number of runs. Every run gets the request's source, the fixed options and the request's destination. |
| Attempts.Below | index.js:54 | the loop test `i < repeatCount`: a comparison with `NaN` is false, and otherwise it is the comparison with the count |
| Attempts.Planned | index.js:54 | the loop test `i < repeatCount` holds exactly for `i` below the planned number. That number is the count itself when the count is positive; otherwise (including `NaN`) it is 0. |
| Attempts.AttemptMessages | index.js:72-92 | one run sends at least two messages, and the first names that run |
| Attempts.AttemptMessagesShape | index.js:72-93 | every message of a run names that run, except the error reply. The error reply exists only when the run failed, and it comes last. A failed run ends with its "failed" message and then the error reply carrying the same error text. |
| Attempts.AttemptMessagesOpening | index.js:72-93 | a run posts "started" as its first message exactly when its process launched. A clean run is exactly "started" then "finished". A run that fails after launching sends three messages, and any other run sends two. |
| Attempts.RunOne | index.js:55-94 | one iteration: it sends the messages of `AttemptMessages` and reports failure exactly when the outcome is a failure |
| Attempts.LoopFrom | index.js:54-95 | the loop from iteration `i` starts between `i` and the planned number of runs |
| Attempts.Repeat | index.js:54-96 | the loop followed by the closing reply: the last message is always the closing reply, and at most the planned number of runs start |
| Attempts.RunAttempts | index.js:54-96 | the counting loop with `break` produces exactly the log and the run count of `Repeat`, and every run it starts is the same encoder run |
| Attempts.CleanRunsAt | index.js:74-85 | in the log of clean runs, position 2j is "started" and 2j+1 is "finished" of run `first + j` |
| Attempts.LoopAllEnded | index.js:54-95 | with no failure among the planned runs, the loop runs them all and logs one clean started/finished pair per run |
| Attempts.LoopFirstFailure | index.js:54-95 | with the first failure at run k+1, the loop logs k clean pairs and then the messages of the failed run, and stops after k+1 runs |
| Attempts.LoopNoAttemptAfterFailure | index.js:90-93 | no run starts after a failed one |
| Attempts.LoopMessagesInOrder | index.js:54-95 | every message of the loop names a run that started, except an error reply, which can only come last. The runs a log names never go down. |
| Encoder.Destination | index.js:71 | the destination is the URL, one slash, then the key |
| Encoder.EncoderRun | index.js:57-71 | each run reads the video source, uses the fixed eleven-option list and publishes to the destination |
| Encoder.DestinationSegments | index.js:71 | for a key without a slash, the destination's slash-separated segments are the URL's segments followed by the key |
| Encoder.DestinationInjective | index.js:71 | two URL/key pairs whose keys have no slash publish to the same destination only if they are the same pair |
| Notes.CountText | index.js:43 | the count as the starting reply renders it (`NaN` when there is none) reads back through `parseInt` as that same count |
| Notes.TextInjective | index.js:29-100 | `Notes.Text` renders each message as the code's template string. The text tells which kind of message it is, and it determines every message except the starting reply. |
| Notes.AttemptTextInjective | index.js:74-85 | the text of a per-run message determines the message: its index, its total, the event, and the error text of a failure |
| Decimal.IntText | index.js:43 | a rendered integer is non-empty, starts with a minus sign iff it is negative, and holds no slash or space |
| Decimal.ParseInt | index.js:41 | `parseInt` gives a number iff a digit follows the optional sign; a negative result needs a leading minus |
| Decimal.ParseIntText | index.js:41 | `parseInt` of a rendered integer gives back that integer, even with other text after it that does not start with a digit |
| Strings.Split | index.js:32 | `split(' ')` always gives at least one field; SplitFields, JoinSplit and SplitJoin state what the fields are |
| Strings.StartsWithAppend | index.js:30 | `startsWith`: `Strings.StartsWith(s, p)` holds iff `s` is `p` followed by some text |
| Strings.SplitFields | index.js:32-33 | splitting gives one more field than there are separators, and no field contains the separator |
| Strings.JoinSplit | index.js:32 | joining the fields of a split with the separator gives back the text |
| Strings.SplitJoin | index.js:32 | splitting the join of one or more separator-free fields gives back those fields |
| Strings.SplitAround | index.js:32 | splitting around one separator gives the fields of the left side followed by the fields of the right side |
| Scenarios.TwoRunsRequest | index.js:30-41 | `!stream <url> <key> <source> 2` is read as the request for that URL, key and source, with a count of 2 |
| Scenarios.TwoCleanRuns | index.js:54-96 | for that command with two clean runs, the response is exactly: the starting reply, started/finished of 1/2, started/finished of 2/2, the closing reply, with 2 runs |
| Scenarios.FirstRunFails | index.js:76-96 | when the first run fails after starting, the response is the starting reply, "1/2 started", "1/2 failed", the error reply and the closing reply. Only 1 run (one encoder call) happens, whatever the second outcome would have been. |

## Left out

- The WhatsApp client: construction, the QR code, the `ready` log, `initialize` and the SIGINT shutdown (index.js:11-24, 104-111). These are session and network I/O.
- `msg.getChat()` (index.js:27). The chat is implicit: a `Chat` message goes to the chat the command came from. The call is awaited before dispatch, so if it fails the handler sends nothing, even for `!ping`; that failure is not modelled.
- The encoder process that fluent-ffmpeg spawns (index.js:57-88). It is a foreign library and an OS process. Each run's outcome is an input, and a run is described by its input file, options and destination.
- `fs.existsSync` (index.js:49) becomes a boolean input.
- All `console.log`/`console.error` output (index.js:73, 77-79, 84, 91). This includes the encoder's stdout/stderr tails and the spawned command line.
- Delivery order: `reply` and `sendMessage` are not awaited, so messages are modelled in the order the handler issues them.
- Failures of `reply` or `sendMessage` are not modelled; every message is assumed to be sent.
- Downloading a video given as a URL: the code does not do it and uses the source as a path (index.js:45-47).
- Cancellation, a job registry and job states: `!stop` only replies (index.js:98-100), so the code has none of these.
- Decimal.ParseInt: does not skip leading white space, does not read a `0x` prefix as hexadecimal, and reads arbitrarily long digit runs exactly. JavaScript parses such runs as floating-point numbers, so values beyond 2^53 lose precision. A field split on single spaces never starts with a space.
- Decimal.IntText: writes every integer as plain digits. JavaScript's `${n}` writes values of 10^21 and above in exponent form (`1e+21`), and such a count in the starting reply is rendered differently from the model.
- Handler.HandleMessage: requires an outcome for every run the count allows. An encoder run that never ends, leaving the handler suspended forever, is not modelled.
- Notes.TextInjective: does not show that the starting reply's text determines its URL, path and count. A URL or path containing " with video " or ". Repeat count: " would make that text ambiguous.
