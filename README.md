# AI Call Co-Pilot relay, modelled in Dafny

The live part of `stream_server.py` bridges one phone call between the
Twilio Media Streams websocket and an OpenAI Realtime session, and then
writes a quality report about the call. This project models that part:

- **The inbound frame transcoder.** Each Twilio `media` payload is
  base64-decoded. It is then expanded from G.711 μ-law to 16-bit PCM, doubled
  with saturation, compressed back to μ-law, re-encoded and sent as
  `input_audio_buffer.append`. Each stage has its own fallback.
  - `Base64` follows CPython's `b64encode` and its non-strict `b64decode`.
    The decoder rejects non-ASCII text, skips characters outside the
    alphabet, stops at a complete pad, and reports the "one extra symbol" and
    "incorrect padding" errors.
  - `G711` follows the μ-law law that `audioop.ulaw2lin`, `audioop.mul(.., 2, 2.0)`
    and `audioop.lin2ulaw` implement: bias 132, clip 8159, eight segments.
  - `Transcoder` is the six steps of one frame.
- **The two relay loops**, in `Relay`. Each loop is a step function over what it
  has done so far, plus a method that loops over the messages its socket
  delivers.
  - The shared record `shared_state` is the class `Relay.SharedState`, and the
    log file is the class `TranscriptLog.ConversationLog`.
  - `twilio_to_openai` is `Relay.TwilioToOpenAI`. It handles start, media, stop,
    other and unparseable messages, and always leaves the call stopped.
  - `openai_to_twilio` is `Relay.OpenAIToTwilio`. It forwards audio back to the
    caller, logs and posts final transcripts, and never writes the shared record.
- **One whole call**, in `Bridge`.
  - The handshake comes first: `session.update`, then `response.create`.
  - A schedule of turns interleaves the two loops over one shared record and one
    log.
  - The report is built from the log once both loops have returned, and not
    before.
- **The quality report**, in `QualityReport`. It covers the blank-text gate, the
  chat request, the fixed failure text and the `re.sub` clean-up of the reply.
  `Text` is Python's `str.strip`, with `str.isspace`'s set of characters.

Timestamps, codec exceptions that do not come from the frame itself, send
failures and the language model's answer are inputs of the model: they sit in
the arrival records (`InboundEnv`, `OutboundEnv`, `StageFaults`) and in
`LlmOutcome`.

The report has one gate only: `not conversation_text.strip()` (line 686)
returns the fixed "No conversation content available." text without asking
the model. `reset_log` always writes the start marker first (lines 649-651),
so for a live call the log is never blank and that gate never fires: even a
call in which nobody spoke is sent to the model. `Bridge.ReportAlwaysRequested`
proves this. There is no separate treatment of a call that is short or in
which the caller never spoke.

## Model

| member | source | states |
|---|---|---|
| Base64.Encode | stream_server.py:870 | `b64encode` writes 4·⌈n/3⌉ characters, all ASCII |
| Base64.RoundTrip | stream_server.py:843 | `b64decode(b64encode(b))` gives back exactly `b`, for every byte string |
| Base64.ScanEncoded | stream_server.py:843 | the decoder loop, run on an encoding that follows already decoded output, appends exactly the encoded bytes |
| Base64.DecodeIgnoresNoise | stream_server.py:843 | for ASCII input, non-alphabet characters are skipped: decoding gives the same result with them removed |
| G711.Ulaw2LinSamples | stream_server.py:850 | `ulaw2lin(frag, 2)` never fails; n code words give 2n bytes, i.e. n samples, sample i being the μ-law expansion of byte i |
| G711.MulSamples | stream_server.py:857 | `mul(frag, 2, 2.0)` succeeds exactly on an even byte count, keeps the length, and sample i becomes clamp(2·s, −32768, 32767) |
| G711.SaturateIsNearest | stream_server.py:857 | the clamped value is the 16-bit sample nearest to 2·s |
| G711.Lin2UlawCodes | stream_server.py:864 | `lin2ulaw(frag, 2)` succeeds exactly on an even byte count and writes n/2 code words for n bytes, word i being the compression of sample i, the compression that G711.CodeRoundTrip shows inverts the expansion |
| G711.SamplesOfPack | stream_server.py:850-857 | reading back the little-endian 16-bit PCM bytes gives the samples written |
| G711.CodeRoundTrip | stream_server.py:849-867 | compressing the expansion of a code word gives that code word, except that the negative zero 0x7F becomes 0xFF |
| G711.ExpandCompressExpand | stream_server.py:849-867 | for one sample, decode(encode(decode(u))) = decode(u) |
| G711.FrameRoundTrip | stream_server.py:849-867 | a frame expanded and compressed again comes back byte for byte, up to that one code word |
| G711.FrameReexpand | stream_server.py:849-867 | for whole frames, decode(encode(decode(b))) = decode(b) |
| Transcoder.TranscodeFrame | stream_server.py:837-876 | an append is produced exactly when the payload is a non-empty string that base64-decodes; its audio decodes to the boosted frame |
| Transcoder.CleanFrame | stream_server.py:849-867 | with every stage working, n bytes give n bytes, byte i being lin2ulaw(clamp(2·ulaw2lin(b_i))) |
| Transcoder.DecodeFallback | stream_server.py:849-853 | when expansion raises, the gain stage gets the raw μ-law bytes as PCM; an odd-length frame then goes out unchanged |
| Transcoder.GainFallback | stream_server.py:849-867 | whatever the other stages do, when the gain raises the PCM passes on unboosted; with expansion working that is the expanded frame, and with compression working too the caller's frame goes out at its own level, by G711.FrameRoundTrip (0x7F becomes 0xFF) |
| Transcoder.EncodeFallback | stream_server.py:863-867 | when compression raises, the original raw μ-law frame is forwarded, not the boosted PCM |
| Transcoder.BoostLength | stream_server.py:849-867 | the frame keeps its length, except that raw bytes boosted as PCM and compressed come out at half the length; a non-empty frame never goes out empty |
| Transcoder.FrameNeverDropped | stream_server.py:837-879 | whatever stage fails, a non-empty payload that decodes is sent, as the base64 text of the boosted frame, which by Base64.RoundTrip decodes back to it |
| Text.Leading | stream_server.py:953 | the count of characters `lstrip` removes: all of them whitespace, and the next one, if any, not |
| Text.Trailing | stream_server.py:953 | the count of characters `rstrip` removes: all of them whitespace, and the one before them, if any, not |
| Text.StripEmptyIffBlank | stream_server.py:686 | `s.strip()` is empty exactly when `s` is all Python whitespace |
| Text.StripShape | stream_server.py:953 | `strip` keeps the contiguous part of `s` after its leading whitespace, with only whitespace after it and none at either end |
| Text.StripIdempotent | stream_server.py:961 | stripping a stripped transcript changes nothing |
| TranscriptLog.ConversationLog.Reset | stream_server.py:649-651 | `reset_log` leaves exactly one line, the start marker |
| TranscriptLog.ConversationLog.Append | stream_server.py:654-658 | `append_log` changes the file as `Appended` says |
| TranscriptLog.ConversationLog.Read | stream_server.py:661-666 | `read_log` returns the rendered lines with the text-mode newline translation applied, so exactly the rendered lines when no line holds a "\r"; a file never written reads as "" |
| TranscriptLog.ReadHasNoReturn | stream_server.py:663-664 | no "\r" survives a text-mode read: each "\r\n" and each lone "\r" comes back as "\n" |
| TranscriptLog.ReadWithoutReturn | stream_server.py:663-664 | text without a "\r" reads back unchanged |
| TranscriptLog.ReadUnchangedIff | stream_server.py:657-664 | the file reads back exactly as written if and only if it holds no "\r" |
| TranscriptLog.StartedReadsNotBlank | stream_server.py:649-664 | a started file, read back, still begins with '[' and so is never blank |
| TranscriptLog.Appended | stream_server.py:654-658 | an empty text adds nothing; any other text adds one entry at the end and keeps every earlier line; a started log stays started |
| TranscriptLog.AppendedText | stream_server.py:657-658 | the file text grows by exactly "[ts] [ROLE] text\n", or not at all for an empty text |
| TranscriptLog.RenderConcat | stream_server.py:657 | opening in append mode concatenates: the text of a + b is the text of a followed by the text of b |
| TranscriptLog.StartedNotBlank | stream_server.py:649-651 | a log that begins with the start marker is never blank |
| QualityReport.BuildQualityReport | stream_server.py:685-720 | blank text gives "No conversation content available." with no request; otherwise exactly one request (gpt-4o-mini, the reviewer role, the conversation framed by the prompt); an exception gives "Report generation failed."; a reply keeps all its non-backslash characters |
| QualityReport.UserMessage | stream_server.py:712 | the user message is the prompt, then "\n\n---\n", then the whole conversation, then "\n---", and nothing else |
| QualityReport.CleanMarkup | stream_server.py:717 | the `re.sub` never lengthens the text, keeps every non-backslash character in order, and leaves text without a backslash unchanged |
| QualityReport.PlainReplyKept | stream_server.py:715-717 | a reply without backslashes is returned stripped and otherwise untouched: asterisks and other markdown stay |
| Relay.SharedState.constructor | stream_server.py:995-999 | the record starts with no call id, no stream id, and not stopped |
| Relay.TwilioToOpenAI | stream_server.py:802-906 | after the loop, the shared record, the log, what was sent and how many messages were read are those of the step-function specification, and `stopped` is true |
| Relay.OpenAIToTwilio | stream_server.py:911-982 | the log, the messages sent to Twilio, the dashboard posts and the count read are those of the specification, and the shared record is unchanged |
| Relay.InboundDispatch | stream_server.py:816-901 | on start, both ids are stored and exactly one SYSTEM line is written; on stop, one SYSTEM line, `stopped` set, one commit sent, and no further message read; any other event changes nothing |
| Relay.InboundStepEffect | stream_server.py:812-901 | one message adds its own sends and SYSTEM lines, and ends the loop exactly when it is a stop, an unparseable message, or a frame whose send raises |
| Relay.FirstInboundEnd | stream_server.py:812-897 | the position of the first message that ends the inbound loop, none ending it before |
| Relay.InboundRunReads | stream_server.py:812-906 | the loop reads up to and including the first message that ends it, or everything when none does |
| Relay.InboundRunSends | stream_server.py:873-897 | what goes to OpenAI is one append per forwarded frame and one commit per stop, in order, among the messages read |
| Relay.InboundRunLogs | stream_server.py:826-887 | the log gains one SYSTEM line per start or stop read, in order |
| Relay.InboundRunShared | stream_server.py:816-888 | the ids are those of the last start read, and `stopped` is set exactly when the loop ended on a stop |
| Relay.CommitOnlyOnStop | stream_server.py:885-897 | every message to OpenAI is an append, except that the last may be a commit; a commit is sent exactly when the loop ended on a stop |
| Relay.AlwaysStopped | stream_server.py:903-906 | however the loop ends, `stopped` is true afterwards and the log begins with the start marker |
| Relay.FinalText | stream_server.py:953 | a missing transcript gives ""; a string gives exactly its `strip()`, with no whitespace at either end; a transcript that is not a string raises (the loop ends) |
| Relay.OutboundStepEffect | stream_server.py:920-977 | one event adds its own Twilio message, log line and post, and ends the loop exactly as `EndsOutbound` says |
| Relay.FirstOutboundEnd | stream_server.py:920-977 | the position of the first event that ends the outbound loop |
| Relay.OutboundRunReads | stream_server.py:920-977 | the loop reads up to and including the first event that ends it |
| Relay.OutboundRunForwards | stream_server.py:930-949 | every audio delta read while there is a stream id and a non-empty delta becomes one `media` message with that stream id and the delta unchanged, in order; the rest are dropped |
| Relay.OutboundRunLogs | stream_server.py:952-965 | every non-blank final transcript read is logged stripped, as "AI" or "Caller", in arrival order |
| Relay.OutboundRunPushes | stream_server.py:952-965 | the same texts are posted to the dashboard, the AI's as `suggestion` and the caller's as `caller` |
| Relay.NoStreamNoAudio | stream_server.py:931-933 | without a stream id nothing is sent back to Twilio |
| Relay.StoppedLeavesAtFirstCheck | stream_server.py:920-977 | once stopped, every event read before the last took a `continue` path; when the loop leaves, the last event read is the first one not skipped, and when none is, it reads every event and stays in the loop |
| Relay.ErrorsDoNotEnd | stream_server.py:967-977 | while not stopped, `error` events, transcript deltas and other types change nothing and do not end the loop |
| Bridge.Handshake | stream_server.py:757-795 | the configuration (μ-law in and out) goes first, then the greeting request |
| Bridge.BackendStreamShape | stream_server.py:780-897 | a well-formed stream to OpenAI is those two messages, then only appends, except that the last message may be a commit |
| Bridge.HandshakeFirst | stream_server.py:1001-1007 | in every interleaving, OpenAI receives `session.update`, `response.create`, then only appends, except that the last message may be a commit |
| Bridge.NothingAfterInboundDone | stream_server.py:897-906 | after the inbound loop has ended, nothing more goes to OpenAI and the ids stay as they are |
| Bridge.InboundIgnoresBackend | stream_server.py:1004-1007 | the shared record and what goes to OpenAI are the same whether or not OpenAI events are interleaved, because the outbound loop only reads the record |
| Bridge.NoStartNoAudio | stream_server.py:931-933 | until a start event gives the stream id, no audio goes back to the caller |
| Bridge.StoppedEndsOutbound | stream_server.py:976-977 | once the call is stopped, the first OpenAI event that is not skipped ends the outbound loop |
| Bridge.ReportAlwaysRequested | stream_server.py:1004-1016 | a report exists exactly when both loops have returned; the call is then stopped and its log started, so the report always asks the model about the whole log as `read_log` returns it, and its text is the failure text or the cleaned reply |

## Left out

- Concurrency is modelled as a schedule of turns, each running one whole pass
  of a loop body. The `await` points inside a pass are not interleaving points:
  the sends, the pacing sleeps at lines 892 and 946, and the dashboard post.
  So the stopped check at line 976 reads the record as it was when the event
  arrived. An inbound stop handled during that event's dashboard post is seen
  one event later than it could be in the source. Log order and the messages
  sent are unaffected.
- Network and file I/O are represented only by their effects:
  - websocket connect, send and close, the aiohttp posts, the OpenAI and
    Twilio clients, and JSON encoding are left out;
  - a send is a message appended to a sequence, and whether it raises is an
    input;
  - a dashboard post is recorded as a call to `update_dashboard`, even when no
    URL is configured or the post fails, since it returns silently either way.
- `connect_openai_realtime` raising (no API key at line 744, or a failed
  connect) ends the call before either loop starts and before any report. Only
  the successful handshake is modelled.
- Starting the Twilio recording at lines 829-834 is a foreign REST call whose
  failure is caught. It changes nothing the model tracks, and
  `download_call_recording` is never called by the live handler.
- Bridge.ReportAlwaysRequested: speaks of a stopped call and its report only
  for a schedule after which both loops have returned. A schedule that leaves a
  loop waiting for its socket is a call still in progress, and it has no report.
- Cancelling `handle_twilio` (an `asyncio.CancelledError`, which the loops'
  `except Exception` does not catch) runs its `finally` and builds a report
  before the loops have returned. The model has no cancellation.
- `make_report`'s post of the report to the dashboard (lines 723-735) is left
  out; the model stops at the report text.
- Call and stream ids, deltas and payloads are strings or missing. A JSON
  number or other non-string value in those fields is not modelled, except
  for a non-string payload (a `b64decode` TypeError, so the frame is skipped)
  and a non-string transcript (`.strip()` raises, so the loop ends).
- `audioop` runs on the host's byte order; the model fixes little-endian
  16-bit samples. `audioop` is gone from Python 3.13 on; the model follows its
  3.12 behaviour.
- Exceptions a codec stage could raise for reasons outside the frame are
  inputs (`StageFaults`). The byte-count failures of `mul` and `lin2ulaw` on
  an odd length are computed.
- TranscriptLog.ConversationLog.Read: a transcript holding a lone surrogate
  (which `json.loads` builds from an escaped "\ud800") makes `append_log`'s
  UTF-8 write raise, and that ends `openai_to_twilio` through line 979. Dafny
  strings cannot hold a lone surrogate, so this path and the log it leaves
  behind are not modelled, neither in `Read` nor in
  `Bridge.ReportAlwaysRequested`.
- The writes of `reset_log` and `append_log` are taken to keep "\n" as it is,
  as a text-mode write does where the line separator is "\n" (POSIX). Only the
  read side translates line endings.
- `LOG_FILE` is one file for the whole server. Two calls at once would mix
  their lines; the model covers one call.
- The clock readings `_ts()` are opaque strings supplied per message.
- The language model's reply is an input. A reply whose content is null raises
  inside the `try` and is folded into `LlmRaised`.
- The wording of the system instructions and of the greeting request
  (`SYSTEM_INSTRUCTIONS`, lines 757-795) is not modelled; the handshake
  messages keep only the fields the relay relies on.
