/**
  The messages the relay reads and writes, decoded at the boundary into one
  variant per kind (stream_server.py lines 811-901 and 919-977), and what the
  environment decides for each message: the clock reading for log lines,
  whether a codec stage raises, and whether a send raises.
*/
module Protocol {
  import opened Wrappers

  // ---- Inbound: Twilio Media Streams -> relay ----

  /** `data.get("media", {}).get("payload")` of a `media` message. */
  datatype Payload =
    | NoPayload          // missing, null, or another false JSON value other than ""
    | Base64Text(s: string)
    | NonText            // a true JSON value that is not a string: b64decode raises TypeError

  /** Which codec stages raise for reasons that are not in the frame itself
      (the `except Exception` around each of lines 850, 857 and 864). */
  datatype StageFaults = StageFaults(decodeRaises: bool, gainRaises: bool, encodeRaises: bool)

  /** One Twilio message, decoded. */
  datatype TwilioEvent =
    | Start(callSid: Option<string>, streamSid: Option<string>)
    | Media(payload: Payload)
    | Stop
    | OtherEvent(name: Option<string>)   // "connected", "mark", a missing event, ...
    | Unparseable                        // json.loads raises, or the envelope, its
                                         // "start" or its "media" is not an object

  datatype InboundEnv = InboundEnv(ts: string, faults: StageFaults, sendFails: bool)

  datatype TwilioArrival = TwilioArrival(event: TwilioEvent, env: InboundEnv)

  // ---- Outbound: OpenAI Realtime -> relay ----

  /** `evt.get("transcript", "")` of a final transcript event. */
  datatype TranscriptField =
    | NoTranscript               // key missing: the default ""
    | TranscriptText(s: string)
    | TranscriptNotText          // null or not a string: `.strip()` raises

  /** One OpenAI Realtime event, decoded. */
  datatype BackendEvent =
    | Garbled                                   // json.loads raises (line 922)
    | NotAnObject                               // valid JSON, not an object: `.get` raises
    | AudioDelta(delta: Option<string>)         // "response.audio.delta"
    | AiTranscriptDone(transcript: TranscriptField)       // "response.audio_transcript.done"
    | CallerTranscriptDone(transcript: TranscriptField)   // "conversation.item.input_audio_transcription.completed"
    | TranscriptDelta                           // "response.audio_transcript.delta"
    | BackendError                              // "error"
    | OtherType                                 // any other type

  datatype OutboundEnv = OutboundEnv(ts: string, sendFails: bool)

  datatype BackendArrival = BackendArrival(event: BackendEvent, env: OutboundEnv)

  // ---- What the relay sends ----

  /** Messages to the OpenAI Realtime session. */
  datatype BackendMsg =
    | SessionUpdate(inputFormat: string, outputFormat: string, transcriptionModel: string,
                    turnDetection: string, silenceMs: nat)
    | ResponseCreate
    | AudioAppend(audio: string)     // "input_audio_buffer.append"
    | AudioCommit                    // "input_audio_buffer.commit"

  /** The one message sent back to Twilio: a `media` envelope. */
  datatype TwilioMsg = MediaOut(streamSid: string, payload: string)

  /** The JSON `{"caller": ..., "suggestion": ...}` posted to the dashboard. */
  datatype DashboardPush = DashboardPush(caller: string, suggestion: string)
}
