/**
  The post-call quality report (stream_server.py lines 685-720): a gate on
  blank conversation text, one chat-completion request carrying the whole
  conversation, a fixed text when that request fails, and a regular-expression
  clean-up of the reply.  The model's reply is a parameter.
*/
module QualityReport {
  import opened Wrappers
  import Text

  const NoContent: string := "No conversation content available."
  const Failed: string := "Report generation failed."

  const ReviewModel: string := "gpt-4o-mini"
  const ReviewerRole: string := "You are an expert QA reviewer."

  /** The evaluation instructions put before the conversation. */
  const EvaluationPrompt: string :=
    "You are a senior QA evaluator analyzing a restaurant receptionist call between a customer and the AI. "
    + "Provide a clear, structured, business-grade report with the following sections:\n\n"
    + "1. Overall Score (out of 100)\n"
    + "2. Communication Metrics:\n"
    + "   - Greeting & Politeness (out of 10)\n"
    + "   - Active Listening (out of 10)\n"
    + "   - Clarity & Conciseness (out of 10)\n"
    + "   - Empathy & Tone (out of 10)\n"
    + "   - Accuracy of Information (out of 10)\n"
    + "3. Summary (2–3 sentences on how the receptionist performed overall)\n"
    + "4. Detailed Analysis (3–5 sentences explaining major highlights and issues)\n"
    + "5. Strengths (3 short bullet points)\n"
    + "6. Areas for Improvement (3 short bullet points)\n"
    + "7. AI Recommendations (specific actions to improve future interactions)\n\n"
    + "Avoid markdown, tables, or asterisks — just plain clean text."

  /** The chat-completion request: model, system message, user message. */
  datatype ChatRequest = ChatRequest(model: string, system: string, user: string)

  /** What the completion call gives back. `LlmRaised` covers every exception
      inside the `try`: the call itself, and a reply whose content is null. */
  datatype LlmOutcome = LlmRaised | LlmReply(content: string)

  /** The report text, and the request sent for it (None when none was). */
  datatype Report = Report(text: string, request: Option<ChatRequest>)

  /** The user message: the prompt, then the conversation between "---" lines. */
  function UserMessage(conversation: string): (m: string)
    ensures |m| == |EvaluationPrompt| + |conversation| + 10
    ensures m[..|EvaluationPrompt|] == EvaluationPrompt
    ensures m[|EvaluationPrompt|..|EvaluationPrompt| + 6] == "\n\n---\n"
    ensures m[|m| - |conversation| - 4..|m| - 4] == conversation
    ensures m[|m| - 4..] == "\n---"
  {
    EvaluationPrompt + "\n\n---\n" + conversation + "\n---"
  }

  /** Python's `re.sub(r"\\(.?)\\*", r"\1", s)`: every backslash, together with
      the run of backslashes after the character that follows it, is replaced
      by that character (nothing when it is a newline or the end). */
  function CleanMarkup(s: string): (r: string)
    ensures |r| <= |s|
    ensures WithoutBackslashes(r) == WithoutBackslashes(s)
    ensures NoBackslash(s) ==> r == s
    decreases |s|
  {
    if s == [] then []
    else if s[0] != '\\' then [s[0]] + CleanMarkup(s[1..])
    else if |s| >= 2 && s[1] != '\n' then [s[1]] + CleanMarkup(SkipBackslashes(s[2..]))
    else CleanMarkup(SkipBackslashes(s[1..]))
  }

  /** The longest suffix of `s` that does not start with a backslash. */
  function SkipBackslashes(s: string): (r: string)
    ensures |r| <= |s| && r == s[|s| - |r|..]
    ensures r == [] || r[0] != '\\'
    ensures WithoutBackslashes(r) == WithoutBackslashes(s)
    decreases |s|
  {
    if s != [] && s[0] == '\\' then SkipBackslashes(s[1..]) else s
  }

  predicate NoBackslash(s: string)
  {
    forall i :: 0 <= i < |s| ==> s[i] != '\\'
  }

  /** The characters of `s` other than backslashes, in order. */
  function WithoutBackslashes(s: string): (r: string)
    ensures |r| <= |s|
    ensures NoBackslash(r)
  {
    if s == [] then []
    else if s[0] == '\\' then WithoutBackslashes(s[1..])
    else [s[0]] + WithoutBackslashes(s[1..])
  }

  /** `build_quality_report_sync(conversation)` when the completion call gives `llm`. */
  function BuildQualityReport(conversation: string, llm: LlmOutcome): (r: Report)
    ensures r.request.Some? <==> !Text.IsBlank(conversation)
    ensures r.request.Some? ==>
      r.request.value == ChatRequest(ReviewModel, ReviewerRole, UserMessage(conversation))
    ensures Text.IsBlank(conversation) ==> r.text == NoContent
    ensures !Text.IsBlank(conversation) ==>
      match llm
      case LlmRaised => r.text == Failed
      case LlmReply(content) => WithoutBackslashes(r.text) == WithoutBackslashes(Text.Strip(content))
  {
    Text.StripEmptyIffBlank(conversation);
    Report(ReportText(conversation, llm), ReportRequest(conversation))
  }

  /** The text half of the report: the gate, then the reply or the failure text. */
  function ReportText(conversation: string, llm: LlmOutcome): string
  {
    if Text.Strip(conversation) == [] then NoContent
    else
      match llm
      case LlmRaised => Failed
      case LlmReply(content) => CleanMarkup(Text.Strip(content))
  }

  /** The request half of the report: none for a blank conversation. */
  function ReportRequest(conversation: string): Option<ChatRequest>
  {
    if Text.Strip(conversation) == [] then None
    else Some(ChatRequest(ReviewModel, ReviewerRole, UserMessage(conversation)))
  }

  /** A reply without backslashes comes back stripped and otherwise untouched:
      the clean-up never removes asterisks or any other markdown. */
  lemma PlainReplyKept(conversation: string, content: string)
    requires !Text.IsBlank(conversation)
    requires NoBackslash(content)
    ensures BuildQualityReport(conversation, LlmReply(content)).text == Text.Strip(content)
  {
    Text.StripEmptyIffBlank(conversation);
    var i, t := Text.Leading(content), Text.Strip(content);
    Text.StripKept(content);
    assert NoBackslash(t) by {
      forall k | 0 <= k < |t| ensures t[k] != '\\' {
        assert t[k] == content[i + k];
      }
    }
    assert ReportText(conversation, LlmReply(content)) == CleanMarkup(t) == t;
  }
}
