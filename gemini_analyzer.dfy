/** The Python Gemini analyzer: one request carrying the instruction and
    the first 30000 characters of the collected text, the reply decoded as
    JSON with a fallback to the text between its first `{` and last `}`,
    and every failure turned into an `{"error": ...}` object. The SDK call
    (client construction included) is the parameter `call`, the JSON
    decoder the parameter `parse`. */
module GeminiAnalyzer {
  import opened Wrappers
  import opened Json
  import opened LlmText

  const KeyMissing := "GEMINI_API_KEY not found in environment variables."
  const ParseFailed := "Failed to parse AI response"

  /** An exception escaping the analysis becomes this message. */
  function Failure(message: string): string {
    "AI Analysis failed: " + message
  }

  /** The analysis for `blob`, given the key from the environment. */
  function AnalyzeReviews(instruction: string, blob: string, apiKey: Option<string>,
                          call: (string, string) -> SdkReply, parse: string -> ParseOutcome): Json
  {
    if apiKey.None? || apiKey.value == "" then ErrorObject(KeyMissing)
    else
      match call(apiKey.value, GeminiPrompt(instruction, blob))
      case Raised(m) => ErrorObject(Failure(m))
      case Replied(None) => ErrorObject(Failure(LoadsNoneMessage))
      case Replied(Some(t)) =>
        match LoadsWithFallback(t, parse)
        case Decoded(v) => v
        case NoObject => ErrorObject(ParseFailed)
        case Undecodable(m) => ErrorObject(Failure(m))
  }

  /** A missing or empty key is reported before any request: the answer
      does not depend on what the service would have said. */
  lemma KeyCheckedFirst(instruction: string, blob: string, apiKey: Option<string>,
                        call1: (string, string) -> SdkReply, call2: (string, string) -> SdkReply,
                        parse: string -> ParseOutcome)
    requires apiKey.None? || apiKey.value == ""
    ensures AnalyzeReviews(instruction, blob, apiKey, call1, parse) == ErrorObject(KeyMissing)
    ensures AnalyzeReviews(instruction, blob, apiKey, call1, parse)
      == AnalyzeReviews(instruction, blob, apiKey, call2, parse)
  {
  }

  /** Only the first 30000 characters of the text reach the model. */
  lemma SeesPrefix(instruction: string, blob: string, extra: string, apiKey: Option<string>,
                   call: (string, string) -> SdkReply, parse: string -> ParseOutcome)
    requires |blob| >= 30000
    ensures AnalyzeReviews(instruction, blob + extra, apiKey, call, parse)
      == AnalyzeReviews(instruction, blob, apiKey, call, parse)
  {
    assert (blob + extra)[..30000] == blob[..30000];
    assert GeminiPrompt(instruction, blob + extra) == GeminiPrompt(instruction, blob);
  }

  /** Every outcome once the key is present: an exception or an absent text
      is a failure carrying its message, and a text is the decoded value,
      the parse failure when no `{` precedes a `}`, or the failure of the
      second decode. */
  lemma Outcomes(instruction: string, blob: string, key: string,
                 call: (string, string) -> SdkReply, parse: string -> ParseOutcome)
    requires key != ""
    ensures var r := AnalyzeReviews(instruction, blob, Some(key), call, parse);
      match call(key, GeminiPrompt(instruction, blob))
      case Raised(m) => r == ErrorObject("AI Analysis failed: " + m) && HasKey(r, "error")
      case Replied(None) => r == ErrorObject("AI Analysis failed: " + LoadsNoneMessage)
      case Replied(Some(t)) =>
        && (parse(t).Parsed? ==> r == parse(t).value)
        && (parse(t).DecodeError? && !HasBracePair(t) ==> r == ErrorObject(ParseFailed))
        && (parse(t).DecodeError? && HasBracePair(t) ==>
              exists i, j | 0 <= i < j <= |t| ::
                && t[i] == '{' && t[j - 1] == '}'
                && (forall k | 0 <= k < i :: t[k] != '{')
                && (forall k | j <= k < |t| :: t[k] != '}')
                && r == match parse(t[i..j]) case Parsed(v) => v case DecodeError(m) => ErrorObject("AI Analysis failed: " + m))
  {
    match call(key, GeminiPrompt(instruction, blob))
    case Raised(_) =>
    case Replied(None) =>
    case Replied(Some(t)) =>
      if parse(t).DecodeError? && HasBracePair(t) {
        var (i, j) := GreedySpan(t).value;
        assert GreedyCandidate(t) == Some(t[i..j]);
      }
  }
}
