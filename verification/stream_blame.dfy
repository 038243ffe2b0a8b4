/** The streaming git-blame HTTP handler (`serveStreamBlame`): a feature-flag
    gate, path normalisation, opening the event writer and the hunk reader,
    and the Read -> Event loop that turns producer outcomes into frames.

    The handler is modelled as a pure function from the request and the
    behaviour of its collaborators to the transcript of effects it causes. */
module StreamBlame {
  import opened Wrappers
  import Text
  import GoHtml

  const FlagName := "enable-streaming-git-blame"
  const StatusBadRequest := 400
  const StatusNotFound := 404
  const StatusInternalServerError := 500

  /** One attributed segment of history, produced by the blame reader and
      serialised as the payload of a "hunk" frame. Its fields are opaque. */
  datatype Hunk = Hunk(commitID: string, author: string, startLine: nat, endLine: nat, filename: string)

  /** What one `hunkReader.Read()` returns: the Go triple `(hunk, done, err)`.
      The hunk is meaningful only when `done` is false and `err` is nil. */
  datatype ReadOutcome = ReadOutcome(hunk: Hunk, done: bool, err: Option<string>)

  /** A frame's payload: a hunk, or the empty map `{}` of the "done" frame. */
  datatype Payload = HunkPayload(hunk: Hunk) | EmptyObject

  /** A named event written by `streamWriter.Event(name, payload)`. */
  datatype Frame = Frame(name: string, payload: Payload)

  /** The observable effects of the handler, in the order they happen. */
  datatype Effect =
    | WriteHeader(status: int)              // w.WriteHeader(status)
    | ResolveRepo                           // handlerutil.GetRepoAndRev is consulted
    | OpenWriter                            // streamhttp.NewWriter(w)
    | OpenReader(repo: string, path: string, commit: string)  // gitserver StreamBlameFile
    | ReadCall                              // hunkReader.Read()
    | Event(frame: Frame)                   // streamWriter.Event(name, payload)
    | SetTraceError(message: string)        // tr.SetError(err)
    | HttpError(status: int, body: string)  // http.Error(w, body, status)

  /** The request as the handler sees it: the feature flags of its context
      and the route variables extracted by the router. */
  datatype Request = Request(flags: map<string, bool>, vars: map<string, string>)

  /** What `GetRepoAndRev` hands back: repository name, commit, error. */
  datatype Resolution = Resolution(repoName: string, commitID: string, err: Option<string>)

  /** The behaviour of the collaborators for one request: the resolver's
      answer, whether `NewWriter` and `StreamBlameFile` fail, the successive
      outcomes of `Read`, and the successive results of the "hunk" `Event`
      calls (a missing entry means the call succeeded). */
  datatype Backend = Backend(
    resolution: Resolution,
    newWriterErr: Option<string>,
    streamErr: Option<string>,
    outcomes: seq<ReadOutcome>,
    eventErrs: seq<Option<string>>)

  function HunkFrame(h: Hunk): Frame { Frame("hunk", HunkPayload(h)) }

  const DoneFrame := Frame("done", EmptyObject)

  /** Feature-flag lookup with a default, as `flags.GetBoolOr`. */
  function GetBoolOr(flags: map<string, bool>, name: string, default: bool): bool {
    if name in flags then flags[name] else default
  }

  /** Route-variable lookup: a missing variable reads as "" (Go's zero value). */
  function Var(vars: map<string, string>, name: string): string {
    if name in vars then vars[name] else ""
  }

  /** The requested path as handed to the reader: when it starts with "/",
      every leading "/" is trimmed; otherwise it is passed unchanged. */
  function NormalizePath(requested: string): (p: string)
    ensures p == [] || p[0] != '/'
    ensures !Text.HasPrefix(requested, "/") ==> p == requested
    ensures exists k :: 0 <= k <= |requested| && requested == requested[..k] + p
                        && forall i :: 0 <= i < k ==> requested[i] == '/'
  {
    var p := if Text.HasPrefix(requested, "/") then Text.TrimLeft(requested, "/") else requested;
    assert requested == requested[..|requested| - |p|] + p;
    p
  }

  /** The guard in front of `TrimLeft` is redundant: normalising is trimming. */
  lemma NormalizeIsTrimLeft(requested: string)
    ensures NormalizePath(requested) == Text.TrimLeft(requested, "/")
  {
  }

  /** The two effects of every error response: the error is recorded on the
      trace span, then written as a 500 with the given body. */
  function Fail(message: string, body: string): seq<Effect> {
    [SetTraceError(message), HttpError(StatusInternalServerError, body)]
  }

  /** The outcome of the next "hunk" Event call: the head of the remaining
      results, nil when none is given. */
  function HeadErr(eventErrs: seq<Option<string>>): Option<string> {
    if |eventErrs| > 0 then eventErrs[0] else None
  }

  function TailErrs(eventErrs: seq<Option<string>>): seq<Option<string>> {
    if |eventErrs| > 0 then eventErrs[1..] else []
  }

  /** The frames a transcript hands to `streamWriter.Event`, in order. A
      call is not a delivery: a "hunk" frame whose Event failed is listed,
      and so is the "done" frame, whose Event result the handler drops. */
  function Frames(t: seq<Effect>): (f: seq<Frame>)
    ensures |f| <= |t|
  {
    if |t| == 0 then []
    else (if t[0].Event? then [t[0].frame] else []) + Frames(t[1..])
  }

  lemma {:induction false} FramesAppend(a: seq<Effect>, b: seq<Effect>)
    ensures Frames(a + b) == Frames(a) + Frames(b)
    decreases |a|
  {
    if |a| > 0 {
      assert (a + b)[0] == a[0];
      assert (a + b)[1..] == a[1..] + b;
      FramesAppend(a[1..], b);
    } else {
      assert a + b == b;
    }
  }

  /** The number of `Read` calls in a transcript. */
  function ReadCount(t: seq<Effect>): nat {
    if |t| == 0 then 0 else (if t[0].ReadCall? then 1 else 0) + ReadCount(t[1..])
  }

  lemma {:induction false} ReadCountAppend(a: seq<Effect>, b: seq<Effect>)
    ensures ReadCount(a + b) == ReadCount(a) + ReadCount(b)
    decreases |a|
  {
    if |a| > 0 {
      assert (a + b)[0] == a[0];
      assert (a + b)[1..] == a[1..] + b;
      ReadCountAppend(a[1..], b);
    } else {
      assert a + b == b;
    }
  }

  /** The error response carries no frame and no read. */
  lemma FailIsSilent(message: string, body: string)
    ensures Frames(Fail(message, body)) == []
    ensures ReadCount(Fail(message, body)) == 0
  {
    var t := Fail(message, body);
    assert t[1..] == [HttpError(StatusInternalServerError, body)];
    assert t[1..][1..] == [];
    assert ReadCount(t[1..]) == 0;
  }

  /** The `i`-th frame answers the `i`-th read: it is that read's hunk when
      the read succeeded with a record, and only the last frame may instead
      be the "done" frame answering a read that reported `done` without an
      error. */
  ghost predicate FramesAnswerReads(outcomes: seq<ReadOutcome>, f: seq<Frame>) {
    && |f| <= |outcomes|
    && forall i :: 0 <= i < |f| ==>
         || (f[i] == HunkFrame(outcomes[i].hunk) && !outcomes[i].done && outcomes[i].err.None?)
         || (i == |f| - 1 && f[i] == DoneFrame && outcomes[i].done && outcomes[i].err.None?)
  }

  /** A transcript ends in a terminal way: a "done" frame, when present, is
      the very last effect; an error response, when present, is the very
      last effect and no "done" frame was emitted. */
  ghost predicate TerminatesCleanly(t: seq<Effect>) {
    && (DoneFrame in Frames(t) ==> t[|t| - 1] == Event(DoneFrame))
    && (forall i :: 0 <= i < |t| && t[i].HttpError? ==> i == |t| - 1 && DoneFrame !in Frames(t))
  }

  /** Only reads, frames and error reports: the loop never writes a header
      nor opens anything. */
  ghost predicate StreamEffectsOnly(t: seq<Effect>) {
    forall i :: 0 <= i < |t| ==> t[i].ReadCall? || t[i].Event? || t[i].SetTraceError? || t[i].HttpError?
  }

  /** Prepending the read and the frame of one streamed hunk keeps the loop's
      guarantees. */
  lemma StreamedHunkStep(outcomes: seq<ReadOutcome>, rest: seq<Effect>)
    requires |outcomes| > 0 && !outcomes[0].done && outcomes[0].err.None?
    requires ReadCount(rest) <= |outcomes| - 1
    requires FramesAnswerReads(outcomes[1..], Frames(rest))
    requires TerminatesCleanly(rest) && StreamEffectsOnly(rest)
    ensures var t := [ReadCall, Event(HunkFrame(outcomes[0].hunk))] + rest;
            && ReadCount(t) <= |outcomes|
            && FramesAnswerReads(outcomes, Frames(t))
            && TerminatesCleanly(t) && StreamEffectsOnly(t)
  {
    var head := [ReadCall, Event(HunkFrame(outcomes[0].hunk))];
    var t := head + rest;
    FramesAppend(head, rest);
    ReadCountAppend(head, rest);
    assert head[1..] == [Event(HunkFrame(outcomes[0].hunk))];
    assert Frames(head) == [HunkFrame(outcomes[0].hunk)];
    assert HunkFrame(outcomes[0].hunk) != DoneFrame;
    var f := Frames(t);
    forall i | 0 <= i < |f|
      ensures || (f[i] == HunkFrame(outcomes[i].hunk) && !outcomes[i].done && outcomes[i].err.None?)
              || (i == |f| - 1 && f[i] == DoneFrame && outcomes[i].done && outcomes[i].err.None?)
    {
      if i > 0 {
        assert f[i] == Frames(rest)[i - 1];
        assert outcomes[i] == outcomes[1..][i - 1];
      }
    }
    if DoneFrame in Frames(t) {
      assert DoneFrame in Frames(rest);
    }
    forall i | 0 <= i < |t| && t[i].HttpError?
      ensures i == |t| - 1 && DoneFrame !in Frames(t)
    {
      assert rest[i - 2].HttpError?;
    }
  }

  /** The error response after `prefix` carries no frame and no further read. */
  lemma FailStep(prefix: seq<Effect>, message: string, body: string)
    requires forall i :: 0 <= i < |prefix| ==> prefix[i].ReadCall? || (prefix[i].Event? && prefix[i].frame != DoneFrame)
    ensures var t := prefix + Fail(message, body);
            && Frames(t) == Frames(prefix) && ReadCount(t) == ReadCount(prefix)
            && TerminatesCleanly(t) && StreamEffectsOnly(t)
  {
    var t := prefix + Fail(message, body);
    FailCounts(prefix, message, body);
    FailShape(prefix, message, body);
    FramesOfNonDone(prefix);
    assert DoneFrame !in Frames(t);
  }

  lemma FailCounts(prefix: seq<Effect>, message: string, body: string)
    ensures Frames(prefix + Fail(message, body)) == Frames(prefix)
    ensures ReadCount(prefix + Fail(message, body)) == ReadCount(prefix)
  {
    FailIsSilent(message, body);
    FramesAppend(prefix, Fail(message, body));
    ReadCountAppend(prefix, Fail(message, body));
    assert Frames(prefix) + [] == Frames(prefix);
  }

  lemma FailShape(prefix: seq<Effect>, message: string, body: string)
    requires forall i :: 0 <= i < |prefix| ==> prefix[i].ReadCall? || prefix[i].Event?
    ensures var t := prefix + Fail(message, body);
            && StreamEffectsOnly(t)
            && forall i :: 0 <= i < |t| && t[i].HttpError? ==> i == |t| - 1
  {
    var t := prefix + Fail(message, body);
    assert |t| == |prefix| + 2;
    assert forall i :: 0 <= i < |prefix| ==> t[i] == prefix[i];
    assert t[|prefix|] == SetTraceError(message);
    assert t[|prefix| + 1] == HttpError(StatusInternalServerError, body);
  }

  lemma {:induction false} FramesOfNonDone(t: seq<Effect>)
    requires forall i :: 0 <= i < |t| ==> !t[i].Event? || t[i].frame != DoneFrame
    ensures DoneFrame !in Frames(t)
    decreases |t|
  {
    if |t| > 0 {
      FramesOfNonDone(t[1..]);
    }
  }

  /** The Read -> Event loop. The error is checked before `done`; the
      result of the "done" Event is ignored; a failing "hunk" Event ends the
      loop. When the given outcomes run out before a terminal outcome the
      transcript just stops there: the producer has not answered yet. */
  function Loop(outcomes: seq<ReadOutcome>, eventErrs: seq<Option<string>>): seq<Effect>
    decreases |outcomes|
  {
    if |outcomes| == 0 then []
    else
      var r := outcomes[0];
      if r.err.Some? then
        [ReadCall] + Fail(r.err.value, GoHtml.EscapeString(r.err.value))
      else if r.done then
        [ReadCall, Event(DoneFrame)]
      else
        var e := HeadErr(eventErrs);
        if e.Some? then
          [ReadCall, Event(HunkFrame(r.hunk))] + Fail(e.value, GoHtml.EscapeString(e.value))
        else
          [ReadCall, Event(HunkFrame(r.hunk))] + Loop(outcomes[1..], TailErrs(eventErrs))
  }

  /** Each read is answered by at most one frame, the `i`-th frame answering
      the `i`-th read; there is at most one "done" frame and it is the last
      effect; an error response is the last effect and no "done" frame
      precedes it; the loop neither writes headers nor opens anything; and
      no read happens beyond the outcomes the producer gives. */
  lemma {:induction false} LoopFraming(outcomes: seq<ReadOutcome>, eventErrs: seq<Option<string>>)
    ensures ReadCount(Loop(outcomes, eventErrs)) <= |outcomes|
    ensures FramesAnswerReads(outcomes, Frames(Loop(outcomes, eventErrs)))
    ensures TerminatesCleanly(Loop(outcomes, eventErrs))
    ensures StreamEffectsOnly(Loop(outcomes, eventErrs))
    decreases |outcomes|
  {
    var t := Loop(outcomes, eventErrs);
    if |outcomes| > 0 {
      var r := outcomes[0];
      if r.err.Some? {
        FailStep([ReadCall], r.err.value, GoHtml.EscapeString(r.err.value));
        assert ReadCount([ReadCall]) == 1;
      } else if r.done {
        assert t[1..] == [Event(DoneFrame)];
        assert Frames(t) == [DoneFrame];
        assert ReadCount(t[1..]) == 0;
      } else {
        var head := [ReadCall, Event(HunkFrame(r.hunk))];
        var e := HeadErr(eventErrs);
        if e.Some? {
          FailStep(head, e.value, GoHtml.EscapeString(e.value));
          assert head[1..] == [Event(HunkFrame(r.hunk))];
          assert Frames(head) == [HunkFrame(r.hunk)];
          assert ReadCount(head[1..]) == 0;
        } else {
          LoopFraming(outcomes[1..], TailErrs(eventErrs));
          StreamedHunkStep(outcomes, Loop(outcomes[1..], TailErrs(eventErrs)));
        }
      }
    }
  }

  /** Everything after the resolver: open the writer (the stat hook is
      installed on it), open the reader on the normalised path, stream. */
  function AfterResolve(requestedPath: string, be: Backend): seq<Effect>
  {
    [OpenWriter] +
    if be.newWriterErr.Some? then
      Fail(be.newWriterErr.value, be.newWriterErr.value)
    else
      [OpenReader(be.resolution.repoName, NormalizePath(requestedPath), be.resolution.commitID)] +
      if be.streamErr.Some? then Fail(be.streamErr.value, be.streamErr.value)
      else Loop(be.outcomes, be.eventErrs)
  }

  /** `serveStreamBlame`'s handler for one request. With the feature flag
      off or absent it answers 404 and does nothing else. A missing "Repo"
      route variable writes 400 but does not stop the handler, and the
      resolver's error is discarded: both as in the source. */
  function Serve(req: Request, be: Backend): (t: seq<Effect>)
    ensures !GetBoolOr(req.flags, FlagName, false) <==> t == [WriteHeader(StatusNotFound)]
  {
    if !GetBoolOr(req.flags, FlagName, false) then [WriteHeader(StatusNotFound)]
    else
      var badRequest := if "Repo" in req.vars then [] else [WriteHeader(StatusBadRequest)];
      var t := badRequest + [ResolveRepo] + AfterResolve(Var(req.vars, "Path"), be);
      assert t[|badRequest|] == ResolveRepo;
      t
  }

  /** A `streamhttp.WriterStat` as handed to the stat hook: event name, bytes
      written, elapsed time in nanoseconds (a Go `time.Duration`), and the
      write error, if any. */
  datatype WriterStat = WriterStat(event: string, bytes: int, duration: int, err: Option<string>)

  /** A structured field logged on the trace span. */
  datatype LogField =
    | StringField(key: string, text: string)
    | IntField(key: string, number: int)
    | ErrorField(message: string)

  /** Go `Duration.Milliseconds()`: the nanosecond count divided by 10^6,
      truncated toward zero (Go's integer division), so the result lies
      between zero and the exact quotient. */
  function Milliseconds(nanos: int): (ms: int)
    ensures nanos >= 0 ==> 0 <= ms * 1_000_000 <= nanos < (ms + 1) * 1_000_000
    ensures nanos < 0 ==> (ms - 1) * 1_000_000 < nanos <= ms * 1_000_000 <= 0
  {
    if nanos >= 0 then nanos / 1_000_000 else -((-nanos) / 1_000_000)
  }

  /** The fields the stat hook logs for one write: always the event name,
      the byte count and the duration in milliseconds, in that order, and an
      error field exactly when the write failed. */
  function StatHookFields(stat: WriterStat): (fields: seq<LogField>)
    ensures |fields| == (if stat.err.Some? then 4 else 3)
    ensures fields[0] == StringField("streamhttp.Event", stat.event)
    ensures fields[1] == IntField("bytes", stat.bytes)
    ensures fields[2] == IntField("duration_ms", Milliseconds(stat.duration))
    ensures (exists i :: 0 <= i < |fields| && fields[i].ErrorField?) <==> stat.err.Some?
    ensures stat.err.Some? ==> fields[3] == ErrorField(stat.err.value)
  {
    var base := [
      StringField("streamhttp.Event", stat.event),
      IntField("bytes", stat.bytes),
      IntField("duration_ms", Milliseconds(stat.duration))
    ];
    if stat.err.Some? then
      var fields := base + [ErrorField(stat.err.value)];
      assert fields[3].ErrorField?;
      fields
    else base
  }
}
