/** The handler's outbound messages: what each says, whether it is a reply to
    the command or a plain chat message, and the exact text it is sent as. */
module Notes {
  import opened Wrappers
  import opened Strings
  import opened Decimal

  datatype Note =
    | Pong
    | Usage
    | Starting(url: string, source: string, count: Option<int>)
    | NotFound(path: string)
    | AttemptStarted(index: int, total: int)
    | AttemptFinished(index: int, total: int)
    | AttemptFailed(index: int, total: int, error: string)
    | StreamingError(error: string)
    | AllDone
    | StopNotImplemented
  {
    /** The notes sent from inside one attempt; they name that attempt. */
    predicate IsAttemptNote() {
      AttemptStarted? || AttemptFinished? || AttemptFailed?
    }
  }

  /** `Reply` quotes the command message; `Chat` is posted to the chat. */
  datatype Message = Reply(note: Note) | Chat(note: Note)

  /** The attempt a message reports on, if it names one. */
  function AttemptOf(m: Message): Option<int> {
    if m.note.IsAttemptNote() then Some(m.note.index) else None
  }

  /** `${repeatCount}` of a count that may be `NaN`. */
  function CountText(count: Option<int>): (s: string)
    ensures ParseInt(s) == count
  {
    match count
    case None =>
      assert Unsigned("NaN") == "NaN";
      "NaN"
    case Some(v) =>
      assert IntText(v) + [] == IntText(v);
      ParseIntText(v, []);
      IntText(v)
  }

  function AttemptText(index: int, total: int, what: string): string {
    "Stream " + (IntText(index) + "/" + (IntText(total) + " " + what))
  }

  /** The text each note is sent as. Long texts are written as a short
      literal followed by the rest, which keeps their first characters
      within the verifier's easy reach. */
  function Text(n: Note): string {
    match n
    case Pong => "pong"
    case Usage => "Usage: " + "!stream <RTMPS_URL> <STREAM_KEY> <VIDEO_PATH_OR_URL> [REPEAT_COUNT]"
    case Starting(url, source, count) =>
      "Starting " + "stream to " + url + " with video " + source + ". Repeat count: " + CountText(count)
    case NotFound(path) => "Error: " + "Video file not found at " + path
    case AttemptStarted(i, t) => AttemptText(i, t, "started!")
    case AttemptFinished(i, t) => AttemptText(i, t, "finished!")
    case AttemptFailed(i, t, e) => AttemptText(i, t, "failed: " + e)
    case StreamingError(e) => "An error " + "occurred during streaming: " + e
    case AllDone => "All " + "streaming tasks completed or stopped due to error."
    case StopNotImplemented => "Stopping " + "any active streams (not yet implemented)."
  }

  function AttemptWhat(n: Note): string
    requires n.IsAttemptNote()
  {
    match n
    case AttemptStarted(_, _) => "started!"
    case AttemptFinished(_, _) => "finished!"
    case AttemptFailed(_, _, e) => "failed: " + e
  }

  /** An attempt text gives back its index, its total and what happened. */
  lemma AttemptTextParts(i1: int, t1: int, w1: string, i2: int, t2: int, w2: string)
    requires AttemptText(i1, t1, w1) == AttemptText(i2, t2, w2)
    ensures i1 == i2 && t1 == t2 && w1 == w2
  {
    var r1 := IntText(t1) + " " + w1;
    var r2 := IntText(t2) + " " + w2;
    var p1 := IntText(i1) + "/" + r1;
    var p2 := IntText(i2) + "/" + r2;
    var head := "Stream ";
    assert p1 == (head + p1)[|head|..];
    assert p2 == (head + p2)[|head|..];
    CutAtFirst(IntText(i1), r1, IntText(i2), r2, '/');
    CutAtFirst(IntText(t1), w1, IntText(t2), w2, ' ');
    IntTextInjective(i1, i2);
    IntTextInjective(t1, t2);
  }

  /** The per-attempt texts are unambiguous: the text of an attempt message
      gives back which attempt, out of how many, and what happened. */
  lemma AttemptTextInjective(a: Note, b: Note)
    requires a.IsAttemptNote() && b.IsAttemptNote()
    requires Text(a) == Text(b)
    ensures a == b
  {
    var wa, wb := AttemptWhat(a), AttemptWhat(b);
    assert Text(a) == AttemptText(a.index, a.total, wa);
    assert Text(b) == AttemptText(b.index, b.total, wb);
    AttemptTextParts(a.index, a.total, wa, b.index, b.total, wb);
    assert wa[0] == wb[0] && wa[1] == wb[1];
    if a.AttemptFailed? && b.AttemptFailed? {
      assert a.error == wa[8..] && b.error == wb[8..];
    }
  }

  /** The first three characters of each kind of text. */
  function Lead(n: Note): (char, char, char) {
    match n
    case Pong => ('p', 'o', 'n')
    case Usage => ('U', 's', 'a')
    case Starting(_, _, _) => ('S', 't', 'a')
    case NotFound(_) => ('E', 'r', 'r')
    case AttemptStarted(_, _) => ('S', 't', 'r')
    case AttemptFinished(_, _) => ('S', 't', 'r')
    case AttemptFailed(_, _, _) => ('S', 't', 'r')
    case StreamingError(_) => ('A', 'n', ' ')
    case AllDone => ('A', 'l', 'l')
    case StopNotImplemented => ('S', 't', 'o')
  }

  lemma TextLead(n: Note)
    ensures |Text(n)| >= 3 && (Text(n)[0], Text(n)[1], Text(n)[2]) == Lead(n)
  {
    if n.IsAttemptNote() {
      AttemptLead(n);
    } else if n.Starting? || n.NotFound? || n.StreamingError? {
      CarrierLead(n);
    } else {
      FixedLead(n);
    }
  }

  lemma AttemptLead(n: Note)
    requires n.IsAttemptNote()
    ensures |Text(n)| >= 3 && (Text(n)[0], Text(n)[1], Text(n)[2]) == Lead(n)
  {
    assert Text(n) == "Stream " + (IntText(n.index) + "/" + (IntText(n.total) + " " + AttemptWhat(n)));
  }

  lemma CarrierLead(n: Note)
    requires n.Starting? || n.NotFound? || n.StreamingError?
    ensures |Text(n)| >= 3 && (Text(n)[0], Text(n)[1], Text(n)[2]) == Lead(n)
  {
  }

  lemma FixedLead(n: Note)
    requires n.Pong? || n.Usage? || n.AllDone? || n.StopNotImplemented?
    ensures |Text(n)| >= 3 && (Text(n)[0], Text(n)[1], Text(n)[2]) == Lead(n)
  {
  }

  /** A fixed text followed by two tails is the same text only for equal tails. */
  lemma TailAfter(head: string, x: string, y: string)
    requires head + x == head + y
    ensures x == y
  {
    assert x == (head + x)[|head|..];
    assert y == (head + y)[|head|..];
  }

  /** Every message text tells which kind of message it is, and every
      message other than the starting reply can be read back from its text. */
  lemma TextInjective(a: Note, b: Note)
    requires Text(a) == Text(b)
    ensures a.Starting? <==> b.Starting?
    ensures !a.Starting? ==> a == b
  {
    TextLead(a);
    TextLead(b);
    assert Lead(a) == Lead(b);
    if a.IsAttemptNote() {
      AttemptTextInjective(a, b);
    } else if a.NotFound? {
      TailAfter("Error: " + "Video file not found at ", a.path, b.path);
    } else if a.StreamingError? {
      TailAfter("An error " + "occurred during streaming: ", a.error, b.error);
    }
  }
}
