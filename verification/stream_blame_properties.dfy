/** Whole-handler properties of the streaming blame endpoint: the effects
    the handler causes, and the frames it hands to the event writer, for
    each way a request can go. */
module StreamBlameProperties {
  import opened Wrappers
  import Text
  import GoHtml
  import opened StreamBlame

  /** Reads that each yield a record. */
  function StreamedReads(hs: seq<Hunk>): seq<ReadOutcome> {
    if |hs| == 0 then [] else [ReadOutcome(hs[0], false, None)] + StreamedReads(hs[1..])
  }

  /** One read and one "hunk" frame per record, in production order. */
  function Interleave(hs: seq<Hunk>): seq<Effect> {
    if |hs| == 0 then [] else [ReadCall, Event(HunkFrame(hs[0]))] + Interleave(hs[1..])
  }

  function HunkFrames(hs: seq<Hunk>): seq<Frame> {
    if |hs| == 0 then [] else [HunkFrame(hs[0])] + HunkFrames(hs[1..])
  }

  lemma {:induction false} InterleaveCounts(hs: seq<Hunk>)
    ensures Frames(Interleave(hs)) == HunkFrames(hs)
    ensures ReadCount(Interleave(hs)) == |hs|
    decreases |hs|
  {
    if |hs| > 0 {
      var head := [ReadCall, Event(HunkFrame(hs[0]))];
      InterleaveCounts(hs[1..]);
      FramesAppend(head, Interleave(hs[1..]));
      ReadCountAppend(head, Interleave(hs[1..]));
      assert head[1..] == [Event(HunkFrame(hs[0]))];
      assert Frames(head) == [HunkFrame(hs[0])];
      assert ReadCount(head[1..]) == 0;
      assert HunkFrames(hs) == [HunkFrame(hs[0])] + HunkFrames(hs[1..]);
    }
  }

  /** The "hunk" Event calls for the first `n` records all succeed. */
  predicate EventsSucceed(eventErrs: seq<Option<string>>, n: nat) {
    forall i :: 0 <= i < n && i < |eventErrs| ==> eventErrs[i].None?
  }

  /** Once the given records have been streamed, the loop continues exactly
      as it would on the remaining outcomes. */
  lemma {:induction false} LoopAfterHunks(hs: seq<Hunk>, tail: seq<ReadOutcome>, eventErrs: seq<Option<string>>)
    requires EventsSucceed(eventErrs, |hs|)
    ensures Loop(StreamedReads(hs) + tail, eventErrs)
            == Interleave(hs) + Loop(tail, DropErrs(eventErrs, |hs|))
    decreases |hs|
  {
    if |hs| > 0 {
      var outs := StreamedReads(hs) + tail;
      assert outs[0] == ReadOutcome(hs[0], false, None);
      assert outs[1..] == StreamedReads(hs[1..]) + tail;
      var errs' := TailErrs(eventErrs);
      assert EventsSucceed(errs', |hs| - 1);
      LoopAfterHunks(hs[1..], tail, errs');
      if |hs| <= |eventErrs| {
        assert errs'[|hs| - 1..] == eventErrs[|hs|..];
      }
    } else {
      assert StreamedReads(hs) + tail == tail;
    }
  }

  /** The happy path: the handler reaches the loop. */
  predicate Streams(req: Request, be: Backend) {
    GetBoolOr(req.flags, FlagName, false) && be.newWriterErr.None? && be.streamErr.None?
  }

  /** Everything the handler does before its first read. */
  function Preamble(req: Request, be: Backend): seq<Effect> {
    (if "Repo" in req.vars then [] else [WriteHeader(StatusBadRequest)])
    + [ResolveRepo, OpenWriter,
       OpenReader(be.resolution.repoName, NormalizePath(Var(req.vars, "Path")), be.resolution.commitID)]
  }

  lemma PreambleIsQuiet(req: Request, be: Backend)
    ensures Frames(Preamble(req, be)) == [] && ReadCount(Preamble(req, be)) == 0
  {
    var p := Preamble(req, be);
    var n := |p|;
    assert Frames(p[n - 1..]) == [] && ReadCount(p[n - 1..]) == 0;
    assert Frames(p[n - 2..]) == [] && ReadCount(p[n - 2..]) == 0;
    assert Frames(p[n - 3..]) == [] && ReadCount(p[n - 3..]) == 0;
    if n == 4 {
      assert p[n - 4..] == p;
    } else {
      assert p[n - 3..] == p;
    }
  }

  lemma ServeIsPreambleThenLoop(req: Request, be: Backend)
    requires Streams(req, be)
    ensures Serve(req, be) == Preamble(req, be) + Loop(be.outcomes, be.eventErrs)
  {
  }

  /** The remaining "hunk" Event outcomes once `n` have been consumed. */
  function DropErrs(eventErrs: seq<Option<string>>, n: nat): seq<Option<string>> {
    if n <= |eventErrs| then eventErrs[n..] else []
  }

  /** Frames and reads of a transcript that opens with the preamble and
      streams `hs` before its last part. */
  lemma CountsAfterPreamble(p: seq<Effect>, hs: seq<Hunk>, last: seq<Effect>)
    requires Frames(p) == [] && ReadCount(p) == 0
    ensures Frames(p + Interleave(hs) + last) == HunkFrames(hs) + Frames(last)
    ensures ReadCount(p + Interleave(hs) + last) == |hs| + ReadCount(last)
  {
    var m := Interleave(hs);
    FramesAppend(p, m);
    FramesAppend(p + m, last);
    ReadCountAppend(p, m);
    ReadCountAppend(p + m, last);
    InterleaveCounts(hs);
    var fp, fm, fl := Frames(p), Frames(m), Frames(last);
    assert fp + fm + fl == fm + fl;
  }

  /** Once `hs` have been streamed, the handler goes on as the loop does on
      the remaining outcomes. */
  lemma ServeAfterHunks(req: Request, be: Backend, hs: seq<Hunk>, tail: seq<ReadOutcome>)
    requires Streams(req, be)
    requires be.outcomes == StreamedReads(hs) + tail
    requires EventsSucceed(be.eventErrs, |hs|)
    ensures Serve(req, be) == Preamble(req, be) + Interleave(hs) + Loop(tail, DropErrs(be.eventErrs, |hs|))
  {
    var p := Preamble(req, be);
    var m := Interleave(hs);
    var l := Loop(tail, DropErrs(be.eventErrs, |hs|));
    ServeIsPreambleThenLoop(req, be);
    LoopAfterHunks(hs, tail, be.eventErrs);
    assert p + (m + l) == p + m + l;
  }

  /** The handler's transcript when the loop, after streaming `hs`, ends
      with `last`. */
  lemma ServeEndsWith(req: Request, be: Backend, hs: seq<Hunk>, tail: seq<ReadOutcome>, last: seq<Effect>)
    requires Streams(req, be)
    requires be.outcomes == StreamedReads(hs) + tail
    requires EventsSucceed(be.eventErrs, |hs|)
    requires Loop(tail, DropErrs(be.eventErrs, |hs|)) == last
    ensures Serve(req, be) == Preamble(req, be) + Interleave(hs) + last
  {
    ServeAfterHunks(req, be, hs, tail);
  }

  /** A read that reports completion ends the loop with one "done" frame,
      whatever the writer would have answered. */
  lemma LoopStopsOnDone(outcomes: seq<ReadOutcome>, eventErrs: seq<Option<string>>)
    requires |outcomes| > 0 && outcomes[0].done && outcomes[0].err.None?
    ensures Loop(outcomes, eventErrs) == [ReadCall, Event(DoneFrame)]
  {
  }

  /** A read that reports an error ends the loop with the escaped 500,
      even when the same read also reports completion. */
  lemma LoopStopsOnReadError(outcomes: seq<ReadOutcome>, eventErrs: seq<Option<string>>)
    requires |outcomes| > 0 && outcomes[0].err.Some?
    ensures Loop(outcomes, eventErrs)
         == [ReadCall, SetTraceError(outcomes[0].err.value),
             HttpError(StatusInternalServerError, GoHtml.EscapeString(outcomes[0].err.value))]
  {
  }

  /** N records then `done`: the transcript is the preamble, one read and
      one "hunk" frame per record in production order, then one read and
      the "done" frame; this includes N = 0. The outcomes after `done` are
      never read, and the result of the "done" Event itself does not
      matter. */
  lemma ServeStreamsAllHunks(req: Request, be: Backend, hs: seq<Hunk>, tail: seq<ReadOutcome>)
    requires Streams(req, be)
    requires be.outcomes == StreamedReads(hs) + tail
    requires |tail| > 0 && tail[0].done && tail[0].err.None?
    requires EventsSucceed(be.eventErrs, |hs|)
    ensures Serve(req, be) == Preamble(req, be) + Interleave(hs) + [ReadCall, Event(DoneFrame)]
  {
    var last := [ReadCall, Event(DoneFrame)];
    LoopStopsOnDone(tail, DropErrs(be.eventErrs, |hs|));
    ServeEndsWith(req, be, hs, tail, last);
  }

  /** On that path the handler calls `Event` with exactly the N "hunk"
      frames in order and then the "done" frame, after N + 1 reads. */
  lemma StreamsAllHunksFrames(req: Request, be: Backend, hs: seq<Hunk>, tail: seq<ReadOutcome>)
    requires Streams(req, be)
    requires be.outcomes == StreamedReads(hs) + tail
    requires |tail| > 0 && tail[0].done && tail[0].err.None?
    requires EventsSucceed(be.eventErrs, |hs|)
    ensures Frames(Serve(req, be)) == HunkFrames(hs) + [DoneFrame]
    ensures ReadCount(Serve(req, be)) == |hs| + 1
  {
    ServeStreamsAllHunks(req, be, hs, tail);
    DoneTranscriptCounts(req, be, hs);
  }

  /** The frames and reads of the transcript that ends in `done`. */
  lemma DoneTranscriptCounts(req: Request, be: Backend, hs: seq<Hunk>)
    ensures var t := Preamble(req, be) + Interleave(hs) + [ReadCall, Event(DoneFrame)];
            && Frames(t) == HunkFrames(hs) + [DoneFrame]
            && ReadCount(t) == |hs| + 1
  {
    var last := [ReadCall, Event(DoneFrame)];
    PreambleIsQuiet(req, be);
    CountsAfterPreamble(Preamble(req, be), hs, last);
    assert last[1..] == [Event(DoneFrame)];
    assert ReadCount(last[1..]) == 0;
  }

  /** A read error after k records: the transcript is the preamble, the k
      streamed records, one more read, then the error recorded and answered
      with a 500 carrying the HTML-escaped message. The error wins even when
      the same read also reports `done`. */
  lemma ServeReadError(req: Request, be: Backend, hs: seq<Hunk>, tail: seq<ReadOutcome>)
    requires Streams(req, be)
    requires be.outcomes == StreamedReads(hs) + tail
    requires |tail| > 0 && tail[0].err.Some?
    requires EventsSucceed(be.eventErrs, |hs|)
    ensures Serve(req, be) == Preamble(req, be) + Interleave(hs)
              + [ReadCall, SetTraceError(tail[0].err.value),
                 HttpError(StatusInternalServerError, GoHtml.EscapeString(tail[0].err.value))]
  {
    var e := tail[0].err.value;
    var last := [ReadCall, SetTraceError(e), HttpError(StatusInternalServerError, GoHtml.EscapeString(e))];
    LoopStopsOnReadError(tail, DropErrs(be.eventErrs, |hs|));
    ServeEndsWith(req, be, hs, tail, last);
  }

  /** A failing "hunk" Event after k successful ones: the transcript is the
      preamble, the k streamed records, the read and the attempted frame of
      record k + 1, then the escaped 500. */
  lemma ServeEventError(req: Request, be: Backend, hs: seq<Hunk>, tail: seq<ReadOutcome>, message: string)
    requires Streams(req, be)
    requires be.outcomes == StreamedReads(hs) + tail
    requires |tail| > 0 && !tail[0].done && tail[0].err.None?
    requires EventsSucceed(be.eventErrs, |hs|)
    requires |hs| < |be.eventErrs| && be.eventErrs[|hs|] == Some(message)
    ensures Serve(req, be) == Preamble(req, be) + Interleave(hs)
              + [ReadCall, Event(HunkFrame(tail[0].hunk)), SetTraceError(message),
                 HttpError(StatusInternalServerError, GoHtml.EscapeString(message))]
  {
    assert HeadErr(DropErrs(be.eventErrs, |hs|)) == Some(message);
    ServeEndsWith(req, be, hs, tail, [ReadCall, Event(HunkFrame(tail[0].hunk)), SetTraceError(message),
                 HttpError(StatusInternalServerError, GoHtml.EscapeString(message))]);
  }

  /** After a read error, the handler has called `Event` with the k
      streamed "hunk" frames and no "done" frame, after k + 1 reads. */
  lemma ReadErrorFrames(req: Request, be: Backend, hs: seq<Hunk>, tail: seq<ReadOutcome>)
    requires Streams(req, be)
    requires be.outcomes == StreamedReads(hs) + tail
    requires |tail| > 0 && tail[0].err.Some?
    requires EventsSucceed(be.eventErrs, |hs|)
    ensures Frames(Serve(req, be)) == HunkFrames(hs)
    ensures DoneFrame !in Frames(Serve(req, be))
    ensures ReadCount(Serve(req, be)) == |hs| + 1
  {
    var e := tail[0].err.value;
    ServeReadError(req, be, hs, tail);
    ReadErrorTranscriptCounts(req, be, hs, e, GoHtml.EscapeString(e));
  }

  /** After a failing "hunk" Event, the handler has called `Event` with the
      k streamed frames and the attempted one, and never with "done", after
      k + 1 reads. */
  lemma EventErrorFrames(req: Request, be: Backend, hs: seq<Hunk>, tail: seq<ReadOutcome>, message: string)
    requires Streams(req, be)
    requires be.outcomes == StreamedReads(hs) + tail
    requires |tail| > 0 && !tail[0].done && tail[0].err.None?
    requires EventsSucceed(be.eventErrs, |hs|)
    requires |hs| < |be.eventErrs| && be.eventErrs[|hs|] == Some(message)
    ensures Frames(Serve(req, be)) == HunkFrames(hs) + [HunkFrame(tail[0].hunk)]
    ensures DoneFrame !in Frames(Serve(req, be))
    ensures ReadCount(Serve(req, be)) == |hs| + 1
  {
    ServeEventError(req, be, hs, tail, message);
    EventErrorTranscriptCounts(req, be, hs, tail[0].hunk, message, GoHtml.EscapeString(message));
  }

  /** The frames and reads of the transcript of a read error. */
  lemma ReadErrorTranscriptCounts(req: Request, be: Backend, hs: seq<Hunk>, message: string, body: string)
    ensures var t := Preamble(req, be) + Interleave(hs)
                     + [ReadCall, SetTraceError(message), HttpError(StatusInternalServerError, body)];
            && Frames(t) == HunkFrames(hs)
            && DoneFrame !in Frames(t)
            && ReadCount(t) == |hs| + 1
  {
    var last := [ReadCall, SetTraceError(message), HttpError(StatusInternalServerError, body)];
    PreambleIsQuiet(req, be);
    CountsAfterPreamble(Preamble(req, be), hs, last);
    ReadErrorTail(message, body);
    assert HunkFrames(hs) + [] == HunkFrames(hs);
    HunkFramesAreHunks(hs);
  }

  lemma ReadErrorTail(message: string, body: string)
    ensures var last := [ReadCall, SetTraceError(message), HttpError(StatusInternalServerError, body)];
            Frames(last) == [] && ReadCount(last) == 1
  {
    var last := [ReadCall, SetTraceError(message), HttpError(StatusInternalServerError, body)];
    FailIsSilent(message, body);
    assert last[1..] == Fail(message, body);
  }

  /** The frames and reads of the transcript of a failed "hunk" Event. */
  lemma EventErrorTranscriptCounts(req: Request, be: Backend, hs: seq<Hunk>, h: Hunk, message: string, body: string)
    ensures var t := Preamble(req, be) + Interleave(hs)
                     + [ReadCall, Event(HunkFrame(h)), SetTraceError(message), HttpError(StatusInternalServerError, body)];
            && Frames(t) == HunkFrames(hs) + [HunkFrame(h)]
            && DoneFrame !in Frames(t)
            && ReadCount(t) == |hs| + 1
  {
    var last := [ReadCall, Event(HunkFrame(h)), SetTraceError(message), HttpError(StatusInternalServerError, body)];
    PreambleIsQuiet(req, be);
    CountsAfterPreamble(Preamble(req, be), hs, last);
    EventErrorTail(h, message, body);
    HunkFramesAreHunks(hs);
  }

  lemma EventErrorTail(h: Hunk, message: string, body: string)
    ensures var last := [ReadCall, Event(HunkFrame(h)), SetTraceError(message), HttpError(StatusInternalServerError, body)];
            Frames(last) == [HunkFrame(h)] && ReadCount(last) == 1
  {
    var last := [ReadCall, Event(HunkFrame(h)), SetTraceError(message), HttpError(StatusInternalServerError, body)];
    FailIsSilent(message, body);
    assert last[1..][1..] == Fail(message, body);
  }

  lemma {:induction false} HunkFramesAreHunks(hs: seq<Hunk>)
    ensures DoneFrame !in HunkFrames(hs)
    decreases |hs|
  {
    if |hs| > 0 {
      HunkFramesAreHunks(hs[1..]);
    }
  }

  /** `NewWriter` fails: a 500 carrying the unescaped message right after
      the attempt; no reader is opened, nothing is read, no frame sent. */
  lemma ServeWriterFails(req: Request, be: Backend)
    requires GetBoolOr(req.flags, FlagName, false) && be.newWriterErr.Some?
    ensures Serve(req, be)
            == (if "Repo" in req.vars then [] else [WriteHeader(StatusBadRequest)])
               + [ResolveRepo, OpenWriter, SetTraceError(be.newWriterErr.value),
                  HttpError(StatusInternalServerError, be.newWriterErr.value)]
  {
  }

  /** `StreamBlameFile` fails: a 500 carrying the unescaped message right
      after the preamble; nothing is read, no frame sent. */
  lemma ServeReaderFails(req: Request, be: Backend)
    requires GetBoolOr(req.flags, FlagName, false) && be.newWriterErr.None? && be.streamErr.Some?
    ensures Serve(req, be)
            == Preamble(req, be)
               + [SetTraceError(be.streamErr.value), HttpError(StatusInternalServerError, be.streamErr.value)]
  {
  }

  /** Putting effects without frames, reads or errors in front of a loop
      transcript keeps the loop's framing guarantees. */
  lemma QuietPrefixKeepsFraming(outcomes: seq<ReadOutcome>, p: seq<Effect>, l: seq<Effect>)
    requires Frames(p) == []
    requires forall i :: 0 <= i < |p| ==> !p[i].HttpError?
    requires FramesAnswerReads(outcomes, Frames(l)) && TerminatesCleanly(l)
    ensures FramesAnswerReads(outcomes, Frames(p + l)) && TerminatesCleanly(p + l)
  {
    FramesAppend(p, l);
    assert Frames(p) + Frames(l) == Frames(l);
    var t := p + l;
    if DoneFrame in Frames(t) {
      assert t[|t| - 1] == l[|l| - 1];
    }
    forall i | 0 <= i < |t| && t[i].HttpError?
      ensures i == |t| - 1 && DoneFrame !in Frames(t)
    {
      assert t[i] == l[i - |p|];
    }
  }

  /** For every request and every collaborator behaviour: each frame answers
      the read of the same rank, there is at most one "done" frame and it is
      the last effect, and an error response is the last effect and never
      follows a "done" frame. */
  lemma ServeFramingInvariant(req: Request, be: Backend)
    ensures FramesAnswerReads(be.outcomes, Frames(Serve(req, be)))
    ensures TerminatesCleanly(Serve(req, be))
  {
    if !GetBoolOr(req.flags, FlagName, false) {
      var t := [WriteHeader(StatusNotFound)];
      assert Frames(t) == [];
    } else if be.newWriterErr.Some? {
      var e := be.newWriterErr.value;
      var p := (if "Repo" in req.vars then [] else [WriteHeader(StatusBadRequest)]) + [ResolveRepo, OpenWriter];
      var t := p + Fail(e, e);
      ServeWriterFails(req, be);
      assert Serve(req, be) == t;
      QuietStart(p);
      FramingOfFail(e, e);
      QuietPrefixKeepsFraming(be.outcomes, p, Fail(e, e));
    } else if be.streamErr.Some? {
      var e := be.streamErr.value;
      ServeReaderFails(req, be);
      PreambleIsQuiet(req, be);
      PreambleHasNoError(req, be);
      FramingOfFail(e, e);
      QuietPrefixKeepsFraming(be.outcomes, Preamble(req, be), Fail(e, e));
    } else {
      ServeIsPreambleThenLoop(req, be);
      PreambleIsQuiet(req, be);
      PreambleHasNoError(req, be);
      LoopFraming(be.outcomes, be.eventErrs);
      QuietPrefixKeepsFraming(be.outcomes, Preamble(req, be), Loop(be.outcomes, be.eventErrs));
    }
  }

  lemma FramingOfFail(message: string, body: string)
    ensures FramesAnswerReads([], Frames(Fail(message, body)))
    ensures TerminatesCleanly(Fail(message, body))
  {
    FailIsSilent(message, body);
  }

  lemma QuietStart(p: seq<Effect>)
    requires |p| <= 3
    requires forall i :: 0 <= i < |p| ==> p[i].WriteHeader? || p[i].ResolveRepo? || p[i].OpenWriter?
    ensures Frames(p) == []
    ensures forall i :: 0 <= i < |p| ==> !p[i].HttpError?
  {
    if |p| > 0 {
      assert Frames(p[1..]) == [] by {
        if |p| > 1 {
          assert Frames(p[1..][1..]) == [] by {
            if |p| > 2 {
              assert p[1..][1..][1..] == [];
            }
          }
        }
      }
    }
  }

  lemma PreambleHasNoError(req: Request, be: Backend)
    ensures forall i :: 0 <= i < |Preamble(req, be)| ==> !Preamble(req, be)[i].HttpError?
  {
  }

  /** The resolver's error is discarded: the transcript is the same whether
      or not `GetRepoAndRev` reported one. */
  lemma ResolveErrorIgnored(req: Request, be: Backend, err: Option<string>)
    ensures Serve(req, be.(resolution := be.resolution.(err := err))) == Serve(req, be)
  {
  }

  /** A missing "Repo" route variable writes 400 and then carries on exactly
      as if the variable had been present. */
  lemma MissingRepoDoesNotStop(req: Request, be: Backend, repo: string)
    requires GetBoolOr(req.flags, FlagName, false) && "Repo" !in req.vars
    ensures Serve(req, be) == [WriteHeader(StatusBadRequest)] + Serve(req.(vars := req.vars["Repo" := repo]), be)
  {
    var req' := req.(vars := req.vars["Repo" := repo]);
    assert Var(req'.vars, "Path") == Var(req.vars, "Path");
  }
}
