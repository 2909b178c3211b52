/**
  One call from end to end (stream_server.py lines 739-798 and 989-1018):
  the session handshake, the two relay loops run side by side over one shared
  record and one log file, and the quality report built from the log once
  both have ended.

  The two coroutines of `asyncio.gather` take turns at their `await` points;
  a schedule of turns says which socket delivers next.  Each turn runs one
  pass of a loop body atomically.
*/
module Bridge {
  import opened Wrappers
  import opened Protocol
  import opened TranscriptLog
  import opened Relay
  import QualityReport
  import Text

  /** What `connect_openai_realtime` sends: the session configuration
      (G.711 μ-law both ways, the transcription model, server-side voice
      activity detection with 300 ms of silence), then the greeting request. */
  function Handshake(): (h: seq<BackendMsg>)
    ensures |h| == 2 && h[0].SessionUpdate? && h[1] == ResponseCreate
    ensures h[0].inputFormat == h[0].outputFormat == "g711_ulaw"
  {
    [SessionUpdate("g711_ulaw", "g711_ulaw", "gpt-4o-mini-transcribe", "server_vad", 300), ResponseCreate]
  }

  /** Everything both loops have done so far. */
  datatype World = World(
    shared: Shared,
    log: seq<LogLine>,
    toBackend: seq<BackendMsg>,
    toTwilio: seq<TwilioMsg>,
    pushes: seq<DashboardPush>,
    inRead: nat, outRead: nat,
    inDone: bool, outDone: bool)

  /** Who goes next: a socket delivers a message, or it closes. */
  datatype Turn =
    | FromTwilio(a: TwilioArrival)
    | TwilioClosed
    | FromBackend(b: BackendArrival)
    | BackendClosed

  function InView(w: World): Inbound
  {
    Inbound(w.shared, w.log, w.toBackend, w.inRead, w.inDone)
  }

  function OutView(w: World): Outbound
  {
    Outbound(w.log, w.toTwilio, w.pushes, w.outRead, w.outDone)
  }

  /** A finished inbound loop runs its `finally` before the other loop runs again. */
  function WithInbound(w: World, i: Inbound): World
  {
    var j := if i.done then Finish(i) else i;
    w.(shared := j.shared, log := j.log, toBackend := j.sent, inRead := j.read, inDone := j.done)
  }

  function WithOutbound(w: World, o: Outbound): World
  {
    w.(log := o.log, toTwilio := o.sent, pushes := o.pushes, outRead := o.read, outDone := o.done)
  }

  function Step(w: World, t: Turn): World
  {
    match t
    case FromTwilio(a) => if w.inDone then w else WithInbound(w, InboundStep(InView(w), a))
    case TwilioClosed => if w.inDone then w else w.(shared := w.shared.(stopped := true), inDone := true)
    case FromBackend(b) => if w.outDone then w else WithOutbound(w, OutboundStep(w.shared, OutView(w), b))
    case BackendClosed => w.(outDone := true)
  }

  function Run(w: World, turns: seq<Turn>): World
    decreases |turns|
  {
    if turns == [] then w else Run(Step(w, turns[0]), turns[1..])
  }

  /** After the handshake and `reset_log`, before either loop has read anything. */
  function Initial(startTs: string): World
  {
    World(InitialShared, [Marker(startTs)], Handshake(), [], [], 0, 0, false, false)
  }

  /** The call so far, and the quality report once there is one. */
  datatype Call = Call(world: World, report: Option<QualityReport.Report>)

  /** `handle_twilio`: the loops run over `turns`.  Both catch every exception,
      so `gather` returns once both have returned; only then does the `finally`
      close the OpenAI socket and build the report from what `read_log` then
      returns.  While either loop is still waiting for a message there is no
      report yet. */
  function HandleCall(startTs: string, turns: seq<Turn>, llm: QualityReport.LlmOutcome): Call
  {
    var w := Run(Initial(startTs), turns);
    if w.inDone && w.outDone then Call(w, Some(QualityReport.BuildQualityReport(ReadNewlines(Render(w.log)), llm)))
    else Call(w, None)
  }

  // ---- What goes to OpenAI ----

  /** The session is configured and the greeting requested before any audio,
      appends follow, and a commit can only be the last message, sent once the
      inbound loop is over. */
  predicate BackendStreamOk(w: World)
  {
    |w.toBackend| >= 2 && w.toBackend[..2] == Handshake()
    && forall j :: 2 <= j < |w.toBackend| ==>
      w.toBackend[j].AudioAppend? || (w.toBackend[j] == AudioCommit && j == |w.toBackend| - 1 && w.inDone)
  }

  lemma StepKeepsBackendStream(w: World, t: Turn)
    requires BackendStreamOk(w)
    ensures BackendStreamOk(Step(w, t))
  {
    if t.FromTwilio? && !w.inDone {
      InboundStepEffect(InView(w), t.a);
      var w' := Step(w, t);
      assert w'.toBackend[..|w.toBackend|] == w.toBackend;
      assert w'.toBackend[..2] == w.toBackend[..2];
    }
  }

  lemma {:induction false} RunKeepsBackendStream(w: World, turns: seq<Turn>)
    requires BackendStreamOk(w)
    ensures BackendStreamOk(Run(w, turns))
    decreases |turns|
  {
    if turns != [] {
      StepKeepsBackendStream(w, turns[0]);
      RunKeepsBackendStream(Step(w, turns[0]), turns[1..]);
    }
  }

  lemma BackendStreamShape(w: World)
    requires BackendStreamOk(w)
    ensures var sent := w.toBackend;
      |sent| >= 2 && sent[..2] == Handshake()
      && sent[0].SessionUpdate? && sent[1] == ResponseCreate
      && (forall j :: 2 <= j < |sent| ==> sent[j].AudioAppend? || (sent[j] == AudioCommit && j == |sent| - 1))
      && (forall j :: 0 <= j < |sent| - 1 ==> !sent[j].AudioCommit?)
  {
    var sent := w.toBackend;
    assert sent[0] == sent[..2][0] && sent[1] == sent[..2][1];
    forall j | 0 <= j < |sent| - 1
      ensures !sent[j].AudioCommit?
    {
      if j >= 2 {
        assert sent[j].AudioAppend?;
      }
    }
  }

  /** Whatever the sockets deliver and in whatever order, OpenAI first receives
      `session.update`, then `response.create`, then only audio appends, and at
      most one commit, as the very last message. */
  lemma HandshakeFirst(startTs: string, turns: seq<Turn>, llm: QualityReport.LlmOutcome)
    ensures var sent := HandleCall(startTs, turns, llm).world.toBackend;
      |sent| >= 2 && sent[..2] == Handshake()
      && sent[0].SessionUpdate? && sent[1] == ResponseCreate
      && (forall j :: 2 <= j < |sent| ==> sent[j].AudioAppend? || (sent[j] == AudioCommit && j == |sent| - 1))
      && (forall j :: 0 <= j < |sent| - 1 ==> !sent[j].AudioCommit?)
  {
    var w := Run(Initial(startTs), turns);
    RunKeepsBackendStream(Initial(startTs), turns);
    BackendStreamShape(w);
  }

  /** Once the inbound loop is over nothing more goes to OpenAI and the ids in
      the shared record stay as they are, whatever else happens. */
  lemma {:induction false} NothingAfterInboundDone(w: World, turns: seq<Turn>)
    requires w.inDone
    ensures var r := Run(w, turns);
      r.inDone && r.toBackend == w.toBackend && r.inRead == w.inRead
      && r.shared.callSid == w.shared.callSid && r.shared.streamSid == w.shared.streamSid
    decreases |turns|
  {
    if turns != [] {
      NothingAfterInboundDone(Step(w, turns[0]), turns[1..]);
    }
  }

  // ---- The inbound loop does not depend on the outbound one ----

  /** What the inbound loop owns: the shared record, what went to OpenAI, how far
      it read, whether it is over. */
  datatype InboundPart = InboundPart(shared: Shared, toBackend: seq<BackendMsg>, inRead: nat, inDone: bool)

  function PartOf(w: World): InboundPart
  {
    InboundPart(w.shared, w.toBackend, w.inRead, w.inDone)
  }

  /** The turns of the Twilio socket alone. */
  function TwilioTurns(turns: seq<Turn>): (r: seq<Turn>)
    ensures |r| <= |turns|
  {
    if turns == [] then []
    else if turns[0].FromTwilio? || turns[0].TwilioClosed? then [turns[0]] + TwilioTurns(turns[1..])
    else TwilioTurns(turns[1..])
  }

  lemma StepPart(w1: World, w2: World, t: Turn)
    requires PartOf(w1) == PartOf(w2)
    ensures t.FromTwilio? || t.TwilioClosed? ==> PartOf(Step(w1, t)) == PartOf(Step(w2, t))
    ensures t.FromBackend? || t.BackendClosed? ==> PartOf(Step(w1, t)) == PartOf(w1)
  {
    if t.FromTwilio? && !w1.inDone {
      InboundStepEffect(InView(w1), t.a);
      InboundStepEffect(InView(w2), t.a);
    }
  }

  /** The shared record and everything the inbound loop sends are the same
      whether or not OpenAI events are interleaved with the Twilio messages:
      the outbound loop only reads the shared record. */
  lemma {:induction false} InboundIgnoresBackend(w1: World, w2: World, turns: seq<Turn>)
    requires PartOf(w1) == PartOf(w2)
    ensures PartOf(Run(w1, turns)) == PartOf(Run(w2, TwilioTurns(turns)))
    decreases |turns|
  {
    if turns != [] {
      var t := turns[0];
      StepPart(w1, w2, t);
      if t.FromTwilio? || t.TwilioClosed? {
        assert TwilioTurns(turns) == [t] + TwilioTurns(turns[1..]);
        var tt := TwilioTurns(turns);
        assert tt[0] == t && tt[1..] == TwilioTurns(turns[1..]);
        InboundIgnoresBackend(Step(w1, t), Step(w2, t), turns[1..]);
      } else {
        InboundIgnoresBackend(Step(w1, t), w2, turns[1..]);
      }
    }
  }

  // ---- What goes back to Twilio ----

  /** No audio goes back to the caller before a start event has given the
      stream id. */
  lemma {:induction false} NoStartNoAudio(w: World, turns: seq<Turn>)
    requires w.shared.streamSid.None? && w.toTwilio == []
    requires forall k :: 0 <= k < |turns| ==> !(turns[k].FromTwilio? && turns[k].a.event.Start?)
    ensures Run(w, turns).toTwilio == []
    decreases |turns|
  {
    if turns != [] {
      var t := turns[0];
      if t.FromTwilio? && !w.inDone {
        InboundStepEffect(InView(w), t.a);
        assert LastStart([t.a]) == None by { assert [t.a][1..] == []; }
      }
      if t.FromBackend? && !w.outDone {
        OutboundStepEffect(w.shared, OutView(w), t.b);
      }
      NoStartNoAudio(Step(w, t), turns[1..]);
    }
  }

  /** Once the call is stopped, the first OpenAI event that is not skipped ends
      the outbound loop. */
  lemma StoppedEndsOutbound(w: World, b: BackendArrival)
    requires w.shared.stopped && !w.outDone && !Skipped(w.shared, b.event)
    ensures Step(w, FromBackend(b)).outDone
  {
    OutboundStepEffect(w.shared, OutView(w), b);
  }

  // ---- The log and the report ----

  lemma StepKeepsStarted(w: World, t: Turn)
    requires Started(w.log)
    ensures Started(Step(w, t).log)
  {
    if t.FromTwilio? && !w.inDone {
      InboundStepEffect(InView(w), t.a);
      SystemNotesNonEmpty([t.a]);
    }
    if t.FromBackend? && !w.outDone {
      OutboundStepEffect(w.shared, OutView(w), t.b);
    }
  }

  lemma {:induction false} RunKeepsStarted(w: World, turns: seq<Turn>)
    requires Started(w.log)
    ensures Started(Run(w, turns).log)
    decreases |turns|
  {
    if turns != [] {
      StepKeepsStarted(w, turns[0]);
      RunKeepsStarted(Step(w, turns[0]), turns[1..]);
    }
  }

  /** A finished inbound loop has left the call stopped. */
  predicate DoneMeansStopped(w: World)
  {
    w.inDone ==> w.shared.stopped
  }

  lemma {:induction false} RunKeepsDoneStopped(w: World, turns: seq<Turn>)
    requires DoneMeansStopped(w)
    ensures DoneMeansStopped(Run(w, turns))
    decreases |turns|
  {
    if turns != [] {
      RunKeepsDoneStopped(Step(w, turns[0]), turns[1..]);
    }
  }

  /** The report is built exactly when both loops have returned; the call is
      then stopped and its log file begins with the start marker, so the
      blank-text gate of the report never fires: the model is always asked,
      with the whole log, as `read_log` returns it, between the delimiters. */
  lemma ReportAlwaysRequested(startTs: string, turns: seq<Turn>, llm: QualityReport.LlmOutcome)
    ensures var c := HandleCall(startTs, turns, llm);
      (c.report.Some? <==> c.world.inDone && c.world.outDone)
      && Started(c.world.log)
      && (c.report.Some? ==>
        c.world.shared.stopped
        && c.report.value.request == Some(QualityReport.ChatRequest(QualityReport.ReviewModel,
             QualityReport.ReviewerRole, QualityReport.UserMessage(ReadNewlines(Render(c.world.log)))))
        && c.report.value.text == match llm
             case LlmRaised => QualityReport.Failed
             case LlmReply(content) => QualityReport.CleanMarkup(Text.Strip(content)))
  {
    var w := Run(Initial(startTs), turns);
    RunKeepsStarted(Initial(startTs), turns);
    RunKeepsDoneStopped(Initial(startTs), turns);
    var text := ReadNewlines(Render(w.log));
    StartedReadsNotBlank(w.log);
    Text.StripEmptyIffBlank(text);
    if w.inDone && w.outDone {
      assert HandleCall(startTs, turns, llm).report
          == Some(QualityReport.Report(QualityReport.ReportText(text, llm), QualityReport.ReportRequest(text)));
    }
  }
}
