/**
  The per-frame transcoder of the inbound relay (stream_server.py lines
  836-876): base64-decode the payload, expand μ-law to 16-bit PCM, double the
  gain with saturation, compress back to μ-law and base64-encode the result
  for an `input_audio_buffer.append` message.  Each codec stage catches its
  own failure and hands on a fallback.
*/
module Transcoder {
  import opened Wrappers
  import opened Bytes
  import opened Protocol
  import Base64
  import opened G711

  /** The values `pcm`, `boosted_pcm` and `boosted_ulaw` take for one frame. */
  datatype Stages = Stages(pcm: seq<byte>, boostedPcm: seq<byte>, boostedUlaw: seq<byte>)

  function RunStages(raw: seq<byte>, f: StageFaults): Stages
  {
    // step 2: on failure the raw μ-law bytes stand in for the PCM
    var pcm := if f.decodeRaises then raw else Ulaw2Lin(raw);
    // step 3: on failure the PCM goes on unchanged
    var gained := Mul(pcm);
    var boostedPcm := if f.gainRaises || gained.None? then pcm else gained.value;
    // step 4: on failure the ORIGINAL raw frame is forwarded
    var encoded := Lin2Ulaw(boostedPcm);
    var boostedUlaw := if f.encodeRaises || encoded.None? then raw else encoded.value;
    Stages(pcm, boostedPcm, boostedUlaw)
  }

  /** The frame that goes out for the decoded frame `raw`. */
  function Boost(raw: seq<byte>, f: StageFaults): seq<byte>
  {
    RunStages(raw, f).boostedUlaw
  }

  /** Steps 1-6 for one `media` payload: the `audio` field of the append message,
      or None when the frame is skipped (`continue`). */
  function TranscodeFrame(p: Payload, f: StageFaults): (r: Option<string>)
    ensures r.Some? <==> p.Base64Text? && p.s != "" && Base64.Decode(p.s).Success?
    ensures r.Some? ==> Base64.Decode(r.value) == Success(Boost(Base64.Decode(p.s).value, f))
  {
    match p
    case Base64Text(s) =>
      if s == "" then None
      else (
        match Base64.Decode(s)
        case Failure(_) => None
        case Success(raw) =>
          var out := Boost(raw, f);
          Base64.RoundTrip(out);
          Some(Base64.Encode(out)))
    case NoPayload => None
    case NonText => None
  }

  const NoFaults := StageFaults(false, false, false)

  /** With every stage working, n code words give n code words, each the
      compression of the doubled, saturated expansion of its input. */
  lemma CleanFrame(raw: seq<byte>)
    ensures |Boost(raw, NoFaults)| == |raw|
    ensures forall i :: 0 <= i < |raw| ==>
      Boost(raw, NoFaults)[i] == LinearToUlaw(Saturate(2 * (UlawToLinear(raw[i]) as int)))
  {
    var pcm := Ulaw2Lin(raw);
    Ulaw2LinSamples(raw);
    MulSamples(pcm);
    var boosted := Mul(pcm).value;
    Lin2UlawCodes(boosted);
  }

  /** When expansion raises, the gain stage reads the raw code words as PCM. */
  lemma DecodeFallback(raw: seq<byte>, f: StageFaults)
    requires f.decodeRaises
    ensures RunStages(raw, f).pcm == raw
    ensures !f.gainRaises && |raw| % 2 == 0 ==> RunStages(raw, f).boostedPcm == Mul(raw).value
    ensures |raw| % 2 != 0 ==> Boost(raw, f) == raw
  {
  }

  /** When the gain raises, whatever the other stages do, the PCM goes on
      unboosted; with expansion working that is the expanded frame, and with
      compression working too the caller's frame is forwarded at its own level:
      only the negative zero 0x7F changes, to 0xFF. */
  lemma GainFallback(raw: seq<byte>, f: StageFaults)
    requires f.gainRaises
    ensures RunStages(raw, f).boostedPcm == RunStages(raw, f).pcm
    ensures !f.decodeRaises ==> RunStages(raw, f).boostedPcm == Ulaw2Lin(raw)
    ensures !f.decodeRaises && !f.encodeRaises ==>
      Boost(raw, f) == seq(|raw|, i requires 0 <= i < |raw| => Canonical(raw[i]))
  {
    FrameRoundTrip(raw);
  }

  /** When compression raises, the raw frame goes out, not the boosted PCM. */
  lemma EncodeFallback(raw: seq<byte>, f: StageFaults)
    requires f.encodeRaises
    ensures Boost(raw, f) == raw
  {
  }

  /** The outgoing frame keeps the length of the incoming one, except when the
      raw bytes were boosted as PCM and compressed, which halves it; so a
      non-empty frame never goes out empty. */
  lemma BoostLength(raw: seq<byte>, f: StageFaults)
    ensures |Boost(raw, f)| ==
      if f.decodeRaises && !f.encodeRaises && |raw| % 2 == 0 then |raw| / 2 else |raw|
    ensures |raw| > 0 ==> |Boost(raw, f)| > 0
  {
    var st := RunStages(raw, f);
    Ulaw2LinSamples(raw);
    MulSamples(st.pcm);
    assert |st.boostedPcm| == |st.pcm|;
    Lin2UlawCodes(st.boostedPcm);
  }

  /** A media frame goes out exactly when its payload is a non-empty string that
      decodes; what goes out decodes to the boosted frame. */
  lemma FrameNeverDropped(s: string, f: StageFaults)
    requires s != "" && Base64.Decode(s).Success?
    ensures TranscodeFrame(Base64Text(s), f) == Some(Base64.Encode(Boost(Base64.Decode(s).value, f)))
  {
  }
}
