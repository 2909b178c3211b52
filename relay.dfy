/**
  The two relay loops of one call (stream_server.py lines 802-982) and the
  record they share (lines 995-999).

  `twilio_to_openai` reads Twilio messages until one of them ends it, and its
  `finally` marks the call stopped.  `openai_to_twilio` reads OpenAI Realtime
  events until one of them ends it; it only reads the shared record.  Each loop
  is specified by a step function over a record of what it has done so far
  (messages sent, log lines written, dashboard posts, messages read, whether
  it has left the loop) and is written as a method over the socket's messages.
*/
module Relay {
  import opened Wrappers
  import opened Protocol
  import opened Transcoder
  import opened TranscriptLog
  import Text

  // ---- The shared record ----

  datatype Shared = Shared(callSid: Option<string>, streamSid: Option<string>, stopped: bool)

  const InitialShared := Shared(None, None, false)

  /** `shared_state`, the dictionary both loops hold. */
  class SharedState {
    var callSid: Option<string>
    var streamSid: Option<string>
    var stopped: bool

    constructor ()
      ensures Value() == InitialShared
    {
      callSid, streamSid, stopped := None, None, false;
    }

    function Value(): Shared
      reads this
    {
      Shared(callSid, streamSid, stopped)
    }
  }

  // ---- twilio_to_openai ----

  datatype Inbound = Inbound(shared: Shared, log: seq<LogLine>, sent: seq<BackendMsg>, read: nat, done: bool)

  const StopNote: string := "Twilio stop event received."

  /** How an f-string prints an optional id: `None` when it is missing. */
  function SidText(sid: Option<string>): string
  {
    match sid
    case None => "None"
    case Some(s) => s
  }

  function StartNote(callSid: Option<string>): (t: string)
    ensures |t| >= 14 && t[..14] == "Call started: "
  {
    "Call started: " + SidText(callSid)
  }

  /** One pass of the body of `async for message in twilio_ws`. */
  function InboundStep(st: Inbound, a: TwilioArrival): Inbound
  {
    var s := st.(read := st.read + 1);
    match a.event
    case Start(callSid, streamSid) =>
      s.(shared := s.shared.(callSid := callSid, streamSid := streamSid),
         log := Appended(s.log, System, StartNote(callSid), a.env.ts))
    case Media(payload) =>
      (match TranscodeFrame(payload, a.env.faults)
       case None => s
       case Some(audio) => s.(sent := s.sent + [AudioAppend(audio)], done := a.env.sendFails))
    case Stop =>
      s.(shared := s.shared.(stopped := true),
         log := Appended(s.log, System, StopNote, a.env.ts),
         sent := s.sent + [AudioCommit],
         done := true)
    case OtherEvent(_) => s
    case Unparseable => s.(done := true)
  }

  /** The loop over the messages still to come, until one ends it. */
  function InboundRun(st: Inbound, arrivals: seq<TwilioArrival>): Inbound
    decreases |arrivals|
  {
    if st.done || arrivals == [] then st else InboundRun(InboundStep(st, arrivals[0]), arrivals[1..])
  }

  /** The `finally` clause. */
  function Finish(st: Inbound): Inbound
  {
    st.(shared := st.shared.(stopped := true))
  }

  /** `twilio_to_openai` on a socket that delivers `arrivals`, after `reset_log`
      at clock reading `startTs`. */
  function InboundLoop(shared: Shared, startTs: string, arrivals: seq<TwilioArrival>): Inbound
  {
    Finish(InboundRun(Inbound(shared, [Marker(startTs)], [], 0, false), arrivals))
  }

  method TwilioToOpenAI(state: SharedState, log: ConversationLog, startTs: string, arrivals: seq<TwilioArrival>)
      returns (sent: seq<BackendMsg>, read: nat)
    modifies state, log
    ensures var r := InboundLoop(old(state.Value()), startTs, arrivals);
      state.Value() == r.shared && log.lines == r.log && sent == r.sent && read == r.read
    ensures state.stopped
  {
    ghost var spec := InboundRun(Inbound(state.Value(), [Marker(startTs)], [], 0, false), arrivals);
    log.Reset(startTs);
    sent, read := [], 0;
    var done := false;
    while read < |arrivals| && !done
      invariant read <= |arrivals|
      invariant InboundRun(Inbound(state.Value(), log.lines, sent, read, done), arrivals[read..]) == spec
    {
      var a := arrivals[read];
      assert arrivals[read..][0] == a && arrivals[read..][1..] == arrivals[read + 1..];
      read := read + 1;
      match a.event {
        case Start(callSid, streamSid) =>
          state.callSid := callSid;
          state.streamSid := streamSid;
          log.Append(System, StartNote(callSid), a.env.ts);
        case Media(payload) =>
          var audio := TranscodeFrame(payload, a.env.faults);
          if audio.Some? {
            sent := sent + [AudioAppend(audio.value)];
            if a.env.sendFails {
              done := true;
            }
          }
        case Stop =>
          log.Append(System, StopNote, a.env.ts);
          state.stopped := true;
          sent := sent + [AudioCommit];
          done := true;
        case OtherEvent(_) =>
        case Unparseable =>
          done := true;
      }
    }
    state.stopped := true;
  }

  // ---- openai_to_twilio ----

  datatype Outbound = Outbound(log: seq<LogLine>, sent: seq<TwilioMsg>, pushes: seq<DashboardPush>, read: nat, done: bool)

  /** Python truthiness of an optional string. */
  predicate Truthy(s: Option<string>)
  {
    s.Some? && s.value != ""
  }

  /** `evt.get("transcript", "").strip()`, or None when `.strip()` raises. */
  function FinalText(t: TranscriptField): (r: Option<string>)
    ensures r.None? <==> t.TranscriptNotText?
    ensures t.NoTranscript? ==> r == Some("")
    ensures t.TranscriptText? ==> r == Some(Text.Strip(t.s))
    ensures r.Some? ==> r.value == [] || (!Text.IsSpace(r.value[0]) && !Text.IsSpace(r.value[|r.value| - 1]))
  {
    match t
    case NoTranscript => Some("")
    case TranscriptText(s) => Text.StripShape(s); Some(Text.Strip(s))
    case TranscriptNotText => None
  }

  /** `if shared_state.get("stopped"): break`. */
  function StopCheck(sh: Shared, st: Outbound): Outbound
  {
    if sh.stopped then st.(done := true) else st
  }

  /** A non-empty final transcript is logged under `role` and posted. */
  function Capture(st: Outbound, role: Role, text: string, ts: string, push: DashboardPush): Outbound
  {
    if text == "" then st else st.(log := Appended(st.log, role, text, ts), pushes := st.pushes + [push])
  }

  /** One pass of the body of `async for raw in openai_ws`, reading `sh`. */
  function OutboundStep(sh: Shared, st: Outbound, a: BackendArrival): Outbound
  {
    var s := st.(read := st.read + 1);
    match a.event
    case Garbled => s
    case NotAnObject => s.(done := true)
    case AudioDelta(delta) =>
      if !Truthy(sh.streamSid) || !Truthy(delta) then s
      else
        var s1 := s.(sent := s.sent + [MediaOut(sh.streamSid.value, delta.value)]);
        if a.env.sendFails then s1.(done := true) else StopCheck(sh, s1)
    case AiTranscriptDone(t) =>
      (match FinalText(t)
       case None => s.(done := true)
       case Some(text) => StopCheck(sh, Capture(s, Ai, text, a.env.ts, DashboardPush("", text))))
    case CallerTranscriptDone(t) =>
      (match FinalText(t)
       case None => s.(done := true)
       case Some(text) => StopCheck(sh, Capture(s, Caller, text, a.env.ts, DashboardPush(text, ""))))
    case TranscriptDelta => StopCheck(sh, s)
    case BackendError => StopCheck(sh, s)
    case OtherType => StopCheck(sh, s)
  }

  function OutboundRun(sh: Shared, st: Outbound, arrivals: seq<BackendArrival>): Outbound
    decreases |arrivals|
  {
    if st.done || arrivals == [] then st else OutboundRun(sh, OutboundStep(sh, st, arrivals[0]), arrivals[1..])
  }

  /** `openai_to_twilio` on a socket that delivers `arrivals` while the shared
      record stays as it is, appending to a log that holds `log0`. */
  function OutboundLoop(sh: Shared, log0: seq<LogLine>, arrivals: seq<BackendArrival>): Outbound
  {
    OutboundRun(sh, Outbound(log0, [], [], 0, false), arrivals)
  }

  method OpenAIToTwilio(state: SharedState, log: ConversationLog, arrivals: seq<BackendArrival>)
      returns (sent: seq<TwilioMsg>, pushes: seq<DashboardPush>, read: nat)
    modifies log
    ensures var r := OutboundLoop(state.Value(), old(log.lines), arrivals);
      log.lines == r.log && sent == r.sent && pushes == r.pushes && read == r.read
    ensures state.Value() == old(state.Value())
  {
    ghost var spec := OutboundLoop(state.Value(), log.lines, arrivals);
    sent, pushes, read := [], [], 0;
    var done := false;
    while read < |arrivals| && !done
      invariant read <= |arrivals|
      invariant OutboundRun(state.Value(), Outbound(log.lines, sent, pushes, read, done), arrivals[read..]) == spec
    {
      var a := arrivals[read];
      assert arrivals[read..][0] == a && arrivals[read..][1..] == arrivals[read + 1..];
      read := read + 1;
      var check := true;
      match a.event {
        case Garbled =>
          check := false;
        case NotAnObject =>
          done := true;
        case AudioDelta(delta) =>
          var streamSid := state.streamSid;
          if !Truthy(streamSid) || !Truthy(delta) {
            check := false;
          } else {
            sent := sent + [MediaOut(streamSid.value, delta.value)];
            if a.env.sendFails {
              done := true;
            }
          }
        case AiTranscriptDone(t) =>
          var text := FinalText(t);
          if text.None? {
            done := true;
          } else if text.value != "" {
            log.Append(Ai, text.value, a.env.ts);
            pushes := pushes + [DashboardPush("", text.value)];
          }
        case CallerTranscriptDone(t) =>
          var text := FinalText(t);
          if text.None? {
            done := true;
          } else if text.value != "" {
            log.Append(Caller, text.value, a.env.ts);
            pushes := pushes + [DashboardPush(text.value, "")];
          }
        case TranscriptDelta =>
        case BackendError =>
        case OtherType =>
      }
      if check && !done && state.stopped {
        done := true;
      }
    }
  }

  // ---- What twilio_to_openai does, message by message ----

  /** The Twilio messages after which `twilio_to_openai` leaves its loop: a
      stop, a message it cannot take apart, and a frame whose send raises. */
  predicate EndsInbound(a: TwilioArrival)
  {
    match a.event
    case Stop => true
    case Unparseable => true
    case Media(payload) => TranscodeFrame(payload, a.env.faults).Some? && a.env.sendFails
    case Start(_, _) => false
    case OtherEvent(_) => false
  }

  /** The position of the first message that ends the loop; |arrivals| when none does. */
  function FirstInboundEnd(arrivals: seq<TwilioArrival>): (n: nat)
    ensures n <= |arrivals|
    ensures forall k :: 0 <= k < n ==> !EndsInbound(arrivals[k])
    ensures n < |arrivals| ==> EndsInbound(arrivals[n])
  {
    if arrivals == [] then 0
    else if EndsInbound(arrivals[0]) then 0
    else 1 + FirstInboundEnd(arrivals[1..])
  }

  /** How many messages the loop takes from the socket before it leaves. */
  function InboundReadCount(arrivals: seq<TwilioArrival>): (k: nat)
    ensures k <= |arrivals|
  {
    var n := FirstInboundEnd(arrivals);
    if n < |arrivals| then n + 1 else |arrivals|
  }

  /** What one Twilio message makes the relay send to OpenAI. */
  function BackendMessagesFor(a: TwilioArrival): seq<BackendMsg>
  {
    match a.event
    case Media(payload) =>
      (match TranscodeFrame(payload, a.env.faults)
       case Some(audio) => [AudioAppend(audio)]
       case None => [])
    case Stop => [AudioCommit]
    case Start(_, _) => []
    case OtherEvent(_) => []
    case Unparseable => []
  }

  function BackendMessages(arrivals: seq<TwilioArrival>): seq<BackendMsg>
  {
    if arrivals == [] then [] else BackendMessagesFor(arrivals[0]) + BackendMessages(arrivals[1..])
  }

  /** The SYSTEM line one Twilio message writes to the log. */
  function SystemNotesFor(a: TwilioArrival): seq<LogLine>
  {
    match a.event
    case Start(callSid, _) => [Entry(a.env.ts, System, StartNote(callSid))]
    case Stop => [Entry(a.env.ts, System, StopNote)]
    case Media(_) => []
    case OtherEvent(_) => []
    case Unparseable => []
  }

  function SystemNotes(arrivals: seq<TwilioArrival>): seq<LogLine>
  {
    if arrivals == [] then [] else SystemNotesFor(arrivals[0]) + SystemNotes(arrivals[1..])
  }

  /** The last start event among `arrivals`. */
  function LastStart(arrivals: seq<TwilioArrival>): (e: Option<TwilioEvent>)
    ensures e.Some? ==> e.value.Start?
  {
    if arrivals == [] then None
    else match LastStart(arrivals[1..])
      case Some(later) => Some(later)
      case None => if arrivals[0].event.Start? then Some(arrivals[0].event) else None
  }

  /** The ids of the shared record: those of the last start event, if any. */
  function IdsAfter(sh: Shared, arrivals: seq<TwilioArrival>): Shared
  {
    match LastStart(arrivals)
    case Some(e) => sh.(callSid := e.callSid, streamSid := e.streamSid)
    case None => sh
  }

  lemma InboundStepEffect(st: Inbound, a: TwilioArrival)
    requires !st.done
    ensures var r := InboundStep(st, a);
      r.read == st.read + 1 && r.done == EndsInbound(a)
      && r.sent == st.sent + BackendMessagesFor(a)
      && r.log == st.log + SystemNotesFor(a)
      && r.shared == IdsAfter(st.shared, [a]).(stopped := st.shared.stopped || a.event.Stop?)
  {
    assert [a][1..] == [];
    assert LastStart([a]) == if a.event.Start? then Some(a.event) else None;
    match a.event {
      case Start(callSid, streamSid) =>
        assert IdsAfter(st.shared, [a]) == st.shared.(callSid := callSid, streamSid := streamSid);
      case Media(payload) =>
        assert IdsAfter(st.shared, [a]) == st.shared;
        match TranscodeFrame(payload, a.env.faults) {
          case None =>
          case Some(audio) =>
        }
      case Stop =>
        assert IdsAfter(st.shared, [a]) == st.shared;
      case OtherEvent(_) =>
        assert IdsAfter(st.shared, [a]) == st.shared;
      case Unparseable =>
        assert IdsAfter(st.shared, [a]) == st.shared;
    }
  }

  /** The dispatch on `event`: a start stores both ids and writes one SYSTEM
      line; a stop writes one SYSTEM line, sets `stopped`, sends one commit and
      reads no further message; any other event changes nothing. */
  lemma InboundDispatch(st: Inbound, a: TwilioArrival, rest: seq<TwilioArrival>)
    requires !st.done
    ensures a.event.Start? ==> var r := InboundStep(st, a);
      r.shared == st.shared.(callSid := a.event.callSid, streamSid := a.event.streamSid)
      && r.log == st.log + [Entry(a.env.ts, System, StartNote(a.event.callSid))]
      && r.sent == st.sent && !r.done
    ensures a.event.Stop? ==> var r := InboundStep(st, a);
      r.shared == st.shared.(stopped := true)
      && r.log == st.log + [Entry(a.env.ts, System, StopNote)]
      && r.sent == st.sent + [AudioCommit]
      && InboundRun(st, [a] + rest) == r
    ensures a.event.OtherEvent? ==> InboundStep(st, a) == st.(read := st.read + 1)
  {
    assert ([a] + rest)[0] == a && ([a] + rest)[1..] == rest;
  }

  /** How far `twilio_to_openai` reads from a point where it is still in its
      loop: up to and including the first message that ends it. */
  lemma {:induction false} InboundRunReads(st: Inbound, arrivals: seq<TwilioArrival>)
    requires !st.done
    ensures var r := InboundRun(st, arrivals);
      r.read == st.read + InboundReadCount(arrivals)
      && r.done == (FirstInboundEnd(arrivals) < |arrivals|)
    decreases |arrivals|
  {
    if arrivals != [] {
      InboundStepEffect(st, arrivals[0]);
      if !EndsInbound(arrivals[0]) {
        InboundRunReads(InboundStep(st, arrivals[0]), arrivals[1..]);
      }
    }
  }

  /** The messages prefix `arrivals[..k]` of the next message and the rest */
  lemma ReadPrefix(arrivals: seq<TwilioArrival>)
    requires arrivals != [] && !EndsInbound(arrivals[0])
    ensures var k := InboundReadCount(arrivals);
      k == InboundReadCount(arrivals[1..]) + 1
      && arrivals[..k] == [arrivals[0]] + arrivals[1..][..k - 1]
  {
    var k := InboundReadCount(arrivals);
    assert arrivals[..k][1..] == arrivals[1..][..k - 1];
  }

  /** What `twilio_to_openai` sends: one append per forwarded frame and one
      commit per stop, among the messages it reads. */
  lemma {:induction false} InboundRunSends(st: Inbound, arrivals: seq<TwilioArrival>)
    requires !st.done
    ensures InboundRun(st, arrivals).sent == st.sent + BackendMessages(arrivals[..InboundReadCount(arrivals)])
    decreases |arrivals|
  {
    if arrivals != [] {
      var a := arrivals[0];
      InboundStepEffect(st, a);
      if EndsInbound(a) {
        assert arrivals[..1] == [a] && [a][1..] == [];
      } else {
        InboundRunSends(InboundStep(st, a), arrivals[1..]);
        ReadPrefix(arrivals);
        var t := arrivals[..InboundReadCount(arrivals)];
        assert t[0] == a && t[1..] == arrivals[1..][..InboundReadCount(arrivals[1..])];
      }
    }
  }

  /** What `twilio_to_openai` logs: one SYSTEM line per start or stop it reads. */
  lemma {:induction false} InboundRunLogs(st: Inbound, arrivals: seq<TwilioArrival>)
    requires !st.done
    ensures InboundRun(st, arrivals).log == st.log + SystemNotes(arrivals[..InboundReadCount(arrivals)])
    decreases |arrivals|
  {
    if arrivals != [] {
      var a := arrivals[0];
      InboundStepEffect(st, a);
      if EndsInbound(a) {
        assert arrivals[..1] == [a] && [a][1..] == [];
      } else {
        InboundRunLogs(InboundStep(st, a), arrivals[1..]);
        ReadPrefix(arrivals);
        var t := arrivals[..InboundReadCount(arrivals)];
        assert t[0] == a && t[1..] == arrivals[1..][..InboundReadCount(arrivals[1..])];
      }
    }
  }

  /** The shared record `twilio_to_openai` leaves behind before its `finally`:
      the ids of the last start event it read, and stopped exactly when it was
      already or the loop ended on a stop event. */
  lemma InboundRunShared(st: Inbound, arrivals: seq<TwilioArrival>)
    requires !st.done
    ensures var n := FirstInboundEnd(arrivals);
      InboundRun(st, arrivals).shared ==
        IdsAfter(st.shared, arrivals[..InboundReadCount(arrivals)])
          .(stopped := st.shared.stopped || (n < |arrivals| && arrivals[n].event.Stop?))
  {
    InboundRunIds(st, arrivals);
    InboundRunStopped(st, arrivals);
    IdsKeepStopped(st.shared, arrivals[..InboundReadCount(arrivals)]);
  }

  lemma IdsKeepStopped(sh: Shared, arrivals: seq<TwilioArrival>)
    ensures IdsAfter(sh, arrivals).stopped == sh.stopped
  {
  }

  /** The last start of a longer list: a later one if there is one, else the first message's. */
  lemma LastStartCons(a: TwilioArrival, rest: seq<TwilioArrival>)
    ensures LastStart([a] + rest) ==
      match LastStart(rest)
      case Some(e) => Some(e)
      case None => if a.event.Start? then Some(a.event) else None
  {
    assert ([a] + rest)[0] == a && ([a] + rest)[1..] == rest;
  }

  lemma IdsAfterCons(sh: Shared, a: TwilioArrival, rest: seq<TwilioArrival>)
    ensures IdsAfter(sh, [a] + rest) == IdsAfter(IdsAfter(sh, [a]), rest)
  {
    LastStartCons(a, rest);
    LastStartCons(a, []);
    assert [a] + [] == [a];
  }

  /** The ids `twilio_to_openai` leaves in the shared record. */
  lemma {:induction false} InboundRunIds(st: Inbound, arrivals: seq<TwilioArrival>)
    requires !st.done
    ensures var r, ids := InboundRun(st, arrivals).shared, IdsAfter(st.shared, arrivals[..InboundReadCount(arrivals)]);
      r.callSid == ids.callSid && r.streamSid == ids.streamSid
    decreases |arrivals|
  {
    if arrivals != [] {
      var a := arrivals[0];
      InboundStepEffect(st, a);
      if EndsInbound(a) {
        assert arrivals[..1] == [a];
      } else {
        var rest := arrivals[1..];
        InboundRunIds(InboundStep(st, a), rest);
        ReadPrefix(arrivals);
        IdsAfterCons(st.shared, a, rest[..InboundReadCount(rest)]);
        IdsKeepStopped(st.shared, [a]);
        IdsIgnoreStopped(IdsAfter(st.shared, [a]), InboundStep(st, a).shared, rest[..InboundReadCount(rest)]);
      }
    }
  }

  /** The ids a list leaves do not depend on the stopped flag they start from. */
  lemma IdsIgnoreStopped(sh: Shared, sh': Shared, arrivals: seq<TwilioArrival>)
    requires sh.callSid == sh'.callSid && sh.streamSid == sh'.streamSid
    ensures IdsAfter(sh, arrivals).callSid == IdsAfter(sh', arrivals).callSid
    ensures IdsAfter(sh, arrivals).streamSid == IdsAfter(sh', arrivals).streamSid
  {
  }

  /** The stopped flag `twilio_to_openai` leaves in the shared record. */
  lemma {:induction false} InboundRunStopped(st: Inbound, arrivals: seq<TwilioArrival>)
    requires !st.done
    ensures var n := FirstInboundEnd(arrivals);
      InboundRun(st, arrivals).shared.stopped == (st.shared.stopped || (n < |arrivals| && arrivals[n].event.Stop?))
    decreases |arrivals|
  {
    if arrivals != [] {
      var a := arrivals[0];
      InboundStepEffect(st, a);
      IdsKeepStopped(st.shared, [a]);
      if !EndsInbound(a) {
        InboundRunStopped(InboundStep(st, a), arrivals[1..]);
      }
    }
  }

  lemma {:induction false} NoEndNoCommit(arrivals: seq<TwilioArrival>)
    requires forall k :: 0 <= k < |arrivals| ==> !EndsInbound(arrivals[k])
    ensures forall m :: m in BackendMessages(arrivals) ==> m.AudioAppend?
  {
    if arrivals != [] {
      NoEndNoCommit(arrivals[1..]);
    }
  }

  lemma {:induction false} BackendMessagesSplit(a: seq<TwilioArrival>, b: seq<TwilioArrival>)
    ensures BackendMessages(a + b) == BackendMessages(a) + BackendMessages(b)
    decreases |a|
  {
    if a != [] {
      assert (a + b)[0] == a[0] && (a + b)[1..] == a[1..] + b;
      BackendMessagesSplit(a[1..], b);
    } else {
      assert a + b == b;
    }
  }

  /** Whatever the socket delivers, `twilio_to_openai` sends audio appends and
      at most one `input_audio_buffer.commit`, as its last message, and it
      sends that commit exactly when its loop ended on a stop event. */
  lemma CommitOnlyOnStop(shared: Shared, startTs: string, arrivals: seq<TwilioArrival>)
    ensures var r := InboundLoop(shared, startTs, arrivals);
      var n := FirstInboundEnd(arrivals);
      (forall j :: 0 <= j < |r.sent| ==> r.sent[j].AudioAppend? || (r.sent[j] == AudioCommit && j == |r.sent| - 1))
      && (AudioCommit in r.sent <==> n < |arrivals| && arrivals[n].event.Stop?)
      && (AudioCommit in r.sent ==> r.sent[|r.sent| - 1] == AudioCommit)
  {
    var st := Inbound(shared, [Marker(startTs)], [], 0, false);
    InboundRunSends(st, arrivals);
    var n := FirstInboundEnd(arrivals);
    var k := InboundReadCount(arrivals);
    var pre := BackendMessages(arrivals[..n]);
    NoEndNoCommit(arrivals[..n]);
    if n < |arrivals| {
      var last := BackendMessagesFor(arrivals[n]);
      assert k == n + 1;
      ReadSends(arrivals, n);
      EndMessages(arrivals[n]);
      SentShape(pre, last);
    } else {
      assert arrivals[..k] == arrivals[..n];
      SentShape(pre, []);
      assert pre + [] == pre;
    }
  }

  /** The messages sent for a prefix one message longer. */
  lemma ReadSends(arrivals: seq<TwilioArrival>, n: nat)
    requires n < |arrivals|
    ensures BackendMessages(arrivals[..n + 1]) == BackendMessages(arrivals[..n]) + BackendMessagesFor(arrivals[n])
  {
    PrefixSnoc(arrivals, n);
    BackendMessagesSnoc(arrivals[..n], arrivals[n]);
  }

  lemma PrefixSnoc<T>(s: seq<T>, n: nat)
    requires n < |s|
    ensures s[..n + 1] == s[..n] + [s[n]]
  {
  }

  lemma BackendMessagesSnoc(pre: seq<TwilioArrival>, a: TwilioArrival)
    ensures BackendMessages(pre + [a]) == BackendMessages(pre) + BackendMessagesFor(a)
  {
    BackendMessagesSplit(pre, [a]);
    assert [a][1..] == [];
  }

  /** The message that ends the loop sends at most one message, a commit exactly on a stop. */
  lemma EndMessages(a: TwilioArrival)
    ensures |BackendMessagesFor(a)| <= 1
    ensures forall m :: m in BackendMessagesFor(a) ==> m.AudioAppend? || m == AudioCommit
    ensures AudioCommit in BackendMessagesFor(a) <==> a.event.Stop?
  {
  }

  /** Appends followed by at most one message: only that one can be a commit. */
  lemma SentShape(pre: seq<BackendMsg>, last: seq<BackendMsg>)
    requires forall m :: m in pre ==> m.AudioAppend?
    requires |last| <= 1
    requires forall m :: m in last ==> m.AudioAppend? || m == AudioCommit
    ensures var s := pre + last;
      (forall j :: 0 <= j < |s| ==> s[j].AudioAppend? || (s[j] == AudioCommit && j == |s| - 1))
      && (AudioCommit in s <==> AudioCommit in last)
      && (AudioCommit in s ==> s[|s| - 1] == AudioCommit)
  {
    var s := pre + last;
    assert forall j :: 0 <= j < |pre| ==> s[j] == pre[j];
  }

  /** `twilio_to_openai` always leaves the call stopped, whatever it read. */
  lemma AlwaysStopped(shared: Shared, startTs: string, arrivals: seq<TwilioArrival>)
    ensures InboundLoop(shared, startTs, arrivals).shared.stopped
    ensures Started(InboundLoop(shared, startTs, arrivals).log)
  {
    var st := Inbound(shared, [Marker(startTs)], [], 0, false);
    InboundRunLogs(st, arrivals);
    SystemNotesNonEmpty(arrivals[..InboundReadCount(arrivals)]);
  }

  lemma {:induction false} SystemNotesNonEmpty(arrivals: seq<TwilioArrival>)
    ensures forall i :: 0 <= i < |SystemNotes(arrivals)| ==>
      SystemNotes(arrivals)[i].Entry? && SystemNotes(arrivals)[i].text != ""
  {
    if arrivals != [] {
      SystemNotesNonEmpty(arrivals[1..]);
    }
  }

  // ---- What openai_to_twilio does, event by event ----

  /** The events the loop skips with `continue`, so that they never reach the
      stopped check: unparseable JSON, and audio with no stream id or no delta. */
  predicate Skipped(sh: Shared, e: BackendEvent)
  {
    e.Garbled? || (e.AudioDelta? && (!Truthy(sh.streamSid) || !Truthy(e.delta)))
  }

  /** The events after which `openai_to_twilio` leaves its loop: one whose
      `.get` or `.strip()` raises, a forwarded delta whose send raises, and,
      once the call is stopped, any event that is not skipped. */
  predicate EndsOutbound(sh: Shared, a: BackendArrival)
  {
    match a.event
    case NotAnObject => true
    case AiTranscriptDone(t) => t.TranscriptNotText? || sh.stopped
    case CallerTranscriptDone(t) => t.TranscriptNotText? || sh.stopped
    case AudioDelta(_) => !Skipped(sh, a.event) && (a.env.sendFails || sh.stopped)
    case Garbled => false
    case TranscriptDelta => sh.stopped
    case BackendError => sh.stopped
    case OtherType => sh.stopped
  }

  function FirstOutboundEnd(sh: Shared, arrivals: seq<BackendArrival>): (n: nat)
    ensures n <= |arrivals|
    ensures forall k :: 0 <= k < n ==> !EndsOutbound(sh, arrivals[k])
    ensures n < |arrivals| ==> EndsOutbound(sh, arrivals[n])
  {
    if arrivals == [] then 0
    else if EndsOutbound(sh, arrivals[0]) then 0
    else 1 + FirstOutboundEnd(sh, arrivals[1..])
  }

  function OutboundReadCount(sh: Shared, arrivals: seq<BackendArrival>): (k: nat)
    ensures k <= |arrivals|
  {
    var n := FirstOutboundEnd(sh, arrivals);
    if n < |arrivals| then n + 1 else |arrivals|
  }

  /** The media message one event makes the relay send back to Twilio. */
  function ForwardedFor(sh: Shared, a: BackendArrival): seq<TwilioMsg>
  {
    match a.event
    case AudioDelta(delta) =>
      if Truthy(sh.streamSid) && Truthy(delta) then [MediaOut(sh.streamSid.value, delta.value)] else []
    case _ => []
  }

  function Forwarded(sh: Shared, arrivals: seq<BackendArrival>): seq<TwilioMsg>
  {
    if arrivals == [] then [] else ForwardedFor(sh, arrivals[0]) + Forwarded(sh, arrivals[1..])
  }

  /** The role and text of a final transcript worth keeping. */
  function TranscriptOf(e: BackendEvent): Option<(Role, string)>
  {
    match e
    case AiTranscriptDone(t) =>
      (match FinalText(t) case Some(text) => if text != "" then Some((Ai, text)) else None case None => None)
    case CallerTranscriptDone(t) =>
      (match FinalText(t) case Some(text) => if text != "" then Some((Caller, text)) else None case None => None)
    case _ => None
  }

  function CapturedFor(a: BackendArrival): seq<LogLine>
  {
    match TranscriptOf(a.event)
    case Some((role, text)) => [Entry(a.env.ts, role, text)]
    case None => []
  }

  function Captured(arrivals: seq<BackendArrival>): seq<LogLine>
  {
    if arrivals == [] then [] else CapturedFor(arrivals[0]) + Captured(arrivals[1..])
  }

  /** The dashboard post of a captured transcript: the caller's words as
      "caller", the assistant's as "suggestion". */
  function PushesFor(a: BackendArrival): seq<DashboardPush>
  {
    match TranscriptOf(a.event)
    case Some((Caller, text)) => [DashboardPush(text, "")]
    case Some((_, text)) => [DashboardPush("", text)]
    case None => []
  }

  function Pushes(arrivals: seq<BackendArrival>): seq<DashboardPush>
  {
    if arrivals == [] then [] else PushesFor(arrivals[0]) + Pushes(arrivals[1..])
  }

  lemma OutboundStepEffect(sh: Shared, st: Outbound, a: BackendArrival)
    requires !st.done
    ensures var r := OutboundStep(sh, st, a);
      r.read == st.read + 1 && r.done == EndsOutbound(sh, a)
      && r.sent == st.sent + ForwardedFor(sh, a)
      && r.log == st.log + CapturedFor(a)
      && r.pushes == st.pushes + PushesFor(a)
  {
    match a.event {
      case AiTranscriptDone(t) =>
        match FinalText(t) {
          case None =>
          case Some(text) =>
        }
      case CallerTranscriptDone(t) =>
        match FinalText(t) {
          case None =>
          case Some(text) =>
        }
      case _ =>
    }
  }

  lemma OutReadPrefix(sh: Shared, arrivals: seq<BackendArrival>)
    requires arrivals != [] && !EndsOutbound(sh, arrivals[0])
    ensures var k := OutboundReadCount(sh, arrivals);
      k == OutboundReadCount(sh, arrivals[1..]) + 1
      && arrivals[..k][0] == arrivals[0]
      && arrivals[..k][1..] == arrivals[1..][..k - 1]
  {
  }

  /** How far `openai_to_twilio` reads: up to and including the first event
      that ends it. */
  lemma {:induction false} OutboundRunReads(sh: Shared, st: Outbound, arrivals: seq<BackendArrival>)
    requires !st.done
    ensures var r := OutboundRun(sh, st, arrivals);
      r.read == st.read + OutboundReadCount(sh, arrivals)
      && r.done == (FirstOutboundEnd(sh, arrivals) < |arrivals|)
    decreases |arrivals|
  {
    if arrivals != [] {
      OutboundStepEffect(sh, st, arrivals[0]);
      if !EndsOutbound(sh, arrivals[0]) {
        OutboundRunReads(sh, OutboundStep(sh, st, arrivals[0]), arrivals[1..]);
      }
    }
  }

  /** What goes back to Twilio: every audio delta read while there is a stream
      id, with its payload unchanged and in the order it arrived. */
  lemma {:induction false} OutboundRunForwards(sh: Shared, st: Outbound, arrivals: seq<BackendArrival>)
    requires !st.done
    ensures OutboundRun(sh, st, arrivals).sent == st.sent + Forwarded(sh, arrivals[..OutboundReadCount(sh, arrivals)])
    decreases |arrivals|
  {
    if arrivals != [] {
      var a := arrivals[0];
      OutboundStepEffect(sh, st, a);
      if EndsOutbound(sh, a) {
        assert arrivals[..1] == [a] && [a][1..] == [];
      } else {
        OutboundRunForwards(sh, OutboundStep(sh, st, a), arrivals[1..]);
        OutReadPrefix(sh, arrivals);
      }
    }
  }

  /** What is logged: every non-blank final transcript read, stripped, under
      its speaker, in the order it arrived. */
  lemma {:induction false} OutboundRunLogs(sh: Shared, st: Outbound, arrivals: seq<BackendArrival>)
    requires !st.done
    ensures OutboundRun(sh, st, arrivals).log == st.log + Captured(arrivals[..OutboundReadCount(sh, arrivals)])
    decreases |arrivals|
  {
    if arrivals != [] {
      var a := arrivals[0];
      OutboundStepEffect(sh, st, a);
      if EndsOutbound(sh, a) {
        assert arrivals[..1] == [a] && [a][1..] == [];
      } else {
        OutboundRunLogs(sh, OutboundStep(sh, st, a), arrivals[1..]);
        OutReadPrefix(sh, arrivals);
      }
    }
  }

  /** What is posted to the dashboard: one post per logged transcript, in the
      same order. */
  lemma {:induction false} OutboundRunPushes(sh: Shared, st: Outbound, arrivals: seq<BackendArrival>)
    requires !st.done
    ensures OutboundRun(sh, st, arrivals).pushes == st.pushes + Pushes(arrivals[..OutboundReadCount(sh, arrivals)])
    decreases |arrivals|
  {
    if arrivals != [] {
      var a := arrivals[0];
      OutboundStepEffect(sh, st, a);
      if EndsOutbound(sh, a) {
        assert arrivals[..1] == [a] && [a][1..] == [];
      } else {
        OutboundRunPushes(sh, OutboundStep(sh, st, a), arrivals[1..]);
        OutReadPrefix(sh, arrivals);
      }
    }
  }

  /** Without a stream id nothing is sent back to Twilio. */
  lemma {:induction false} NoStreamNoAudio(sh: Shared, arrivals: seq<BackendArrival>)
    requires !Truthy(sh.streamSid)
    ensures Forwarded(sh, arrivals) == []
  {
    if arrivals != [] {
      NoStreamNoAudio(sh, arrivals[1..]);
    }
  }

  /** Once the call is stopped, `openai_to_twilio` handles at most one more event
      that is not skipped: every event it read before its last was skipped, and
      it leaves at the first one that is not. */
  lemma StoppedLeavesAtFirstCheck(sh: Shared, log0: seq<LogLine>, arrivals: seq<BackendArrival>)
    requires sh.stopped
    ensures var r := OutboundLoop(sh, log0, arrivals);
      r.read <= |arrivals|
      && (forall j :: 0 <= j < r.read - 1 ==> Skipped(sh, arrivals[j].event))
      && (r.done <==> exists j :: 0 <= j < |arrivals| && !Skipped(sh, arrivals[j].event))
      && (r.done ==> r.read >= 1 && !Skipped(sh, arrivals[r.read - 1].event))
      && (!r.done ==> r.read == |arrivals|)
  {
    var st := Outbound(log0, [], [], 0, false);
    OutboundRunReads(sh, st, arrivals);
    var n := FirstOutboundEnd(sh, arrivals);
    if n < |arrivals| {
      assert EndsOutbound(sh, arrivals[n]);
    }
    forall j | 0 <= j < |arrivals| && !Skipped(sh, arrivals[j].event)
      ensures n <= j
    {
      assert EndsOutbound(sh, arrivals[j]);
    }
  }

  /** While the call is not stopped, an `error` event, a transcript delta or an
      event of another type changes nothing but the count of events read. */
  lemma ErrorsDoNotEnd(sh: Shared, st: Outbound, a: BackendArrival)
    requires !sh.stopped && !st.done
    requires a.event.BackendError? || a.event.TranscriptDelta? || a.event.OtherType?
    ensures OutboundStep(sh, st, a) == st.(read := st.read + 1)
  {
  }
}
