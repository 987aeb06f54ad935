/** The Python Groq analyzer of the category service: a system prompt and a
    user message holding the first 25000 characters of the collected text,
    the reply decoded as JSON with a fallback to the text between its first
    `{` and last `}`, and every exception reported as `{"error": message}`.
    The SDK call (client construction included, which raises without a
    key) is the parameter `call`, the JSON decoder the parameter `parse`. */
module GroqAnalyzer {
  import opened Wrappers
  import opened Seqs
  import opened Json
  import opened LlmText

  const ParseFailed := "Failed to parse LLM response"

  /** The user message: `Reviews:` and the first 25000 characters. */
  function UserMessage(blob: string): (r: string)
    ensures exists safe ::
              && r == "Reviews:\n" + safe && safe <= blob
              && |safe| == (if |blob| <= 25000 then |blob| else 25000)
    ensures |blob| <= 25000 ==> r == "Reviews:\n" + blob
  {
    "Reviews:\n" + Take(blob, 25000)
  }

  function AnalyzeReviews(systemPrompt: string, blob: string,
                          call: (string, string) -> SdkReply, parse: string -> ParseOutcome): Json
  {
    match call(systemPrompt, UserMessage(blob))
    case Raised(m) => ErrorObject(m)
    case Replied(None) => ErrorObject(LoadsNoneMessage)
    case Replied(Some(t)) =>
      match LoadsWithFallback(t, parse)
      case Decoded(v) => v
      case NoObject => ErrorObject(ParseFailed)
      case Undecodable(m) => ErrorObject(m)
  }

  /** Only the first 25000 characters of the text reach the model. */
  lemma SeesPrefix(systemPrompt: string, blob: string, extra: string,
                   call: (string, string) -> SdkReply, parse: string -> ParseOutcome)
    requires |blob| >= 25000
    ensures AnalyzeReviews(systemPrompt, blob + extra, call, parse)
      == AnalyzeReviews(systemPrompt, blob, call, parse)
  {
    assert (blob + extra)[..25000] == blob[..25000];
    assert UserMessage(blob + extra) == UserMessage(blob);
  }

  /** Every outcome: an exception is reported with its own message, and a
      text is the decoded value, the parse failure when no `{` precedes a
      `}`, or the error of the second decode. */
  lemma Outcomes(systemPrompt: string, blob: string,
                 call: (string, string) -> SdkReply, parse: string -> ParseOutcome)
    ensures var r := AnalyzeReviews(systemPrompt, blob, call, parse);
      match call(systemPrompt, UserMessage(blob))
      case Raised(m) => r == ErrorObject(m) && Get(r.entries, "error") == Some(JStr(m))
      case Replied(None) => r == ErrorObject(LoadsNoneMessage)
      case Replied(Some(t)) =>
        && (parse(t).Parsed? ==> r == parse(t).value)
        && (parse(t).DecodeError? && !HasBracePair(t) ==> r == ErrorObject(ParseFailed))
        && (parse(t).DecodeError? && HasBracePair(t) ==>
              exists i, j | 0 <= i < j <= |t| ::
                && t[i] == '{' && t[j - 1] == '}'
                && (forall k | 0 <= k < i :: t[k] != '{')
                && (forall k | j <= k < |t| :: t[k] != '}')
                && r == match parse(t[i..j]) case Parsed(v) => v case DecodeError(m) => ErrorObject(m))
  {
    match call(systemPrompt, UserMessage(blob))
    case Raised(_) =>
    case Replied(None) =>
    case Replied(Some(t)) =>
      if parse(t).DecodeError? && HasBracePair(t) {
        var (i, j) := GreedySpan(t).value;
        assert GreedyCandidate(t) == Some(t[i..j]);
      }
  }
}
