/** Pulling a JSON candidate out of free text returned by a language model.
    The regular expressions of the core are modelled directly over the
    characters: the greedy `\{[\s\S]*\}` of the Next.js route (and Python's
    `(\{.*\})` with DOTALL in both analyzers), and the Gradio app's
    non-greedy ```` ```json\s*(\{.*?\})\s*```|(\{.*?\}) ```` with DOTALL. */
module LlmText {
  import opened Wrappers
  import opened Seqs
  import opened Json
  import Strings

  /** What a Python SDK call ends with: an exception with its message, or a
      reply whose text may be absent (`None`). */
  datatype SdkReply = Raised(message: string) | Replied(text: Option<string>)

  /** The message of the `TypeError` Python's `json.loads` raises on `None`. */
  const LoadsNoneMessage := "the JSON object must be str, bytes or bytearray, not NoneType"

  /** The prompt: the instruction, a blank line, `Reviews:`, then the first
      30000 characters of the collected text (the same in the
      Next.js route and the Python analyzer). */
  function GeminiPrompt(instruction: string, blob: string): (r: string)
    ensures exists safe ::
              && r == instruction + "\n\nReviews:\n" + safe && safe <= blob
              && |safe| == (if |blob| <= 30000 then |blob| else 30000)
    ensures |blob| <= 30000 ==> r == instruction + "\n\nReviews:\n" + blob
  {
    instruction + "\n\nReviews:\n" + Take(blob, 30000)
  }

  /** Some `{` comes before some `}`: the condition under which either regular
      expression finds a match at all. */
  ghost predicate HasBracePair(s: string) {
    exists i, j | 0 <= i < j < |s| :: s[i] == '{' && s[j] == '}'
  }

  /** The first `c` at or after `from`. */
  function FirstIndex(s: string, c: char, from: nat): (r: Option<nat>)
    ensures r.Some? ==> from <= r.value < |s| && s[r.value] == c
    ensures r.Some? ==> forall k | from <= k < r.value :: s[k] != c
    ensures r.None? ==> forall k | from <= k < |s| :: s[k] != c
    decreases |s| - from
  {
    if from >= |s| then None
    else if s[from] == c then Some(from)
    else FirstIndex(s, c, from + 1)
  }

  /** The last `c` before position `upto`. */
  function LastIndex(s: string, c: char, upto: nat): (r: Option<nat>)
    requires upto <= |s|
    ensures r.Some? ==> r.value < upto && s[r.value] == c
    ensures r.Some? ==> forall k | r.value < k < upto :: s[k] != c
    ensures r.None? ==> forall k | 0 <= k < upto :: s[k] != c
  {
    if upto == 0 then None
    else if s[upto - 1] == c then Some(upto - 1)
    else LastIndex(s, c, upto - 1)
  }

  /** The span `[start, end)` of the greedy match: the first `{` through the
      last `}`, or nothing when no `{` precedes a `}`. */
  function GreedySpan(s: string): (r: Option<(nat, nat)>)
    ensures r.Some? ==>
      && r.value.0 + 2 <= r.value.1 <= |s|
      && s[r.value.0] == '{' && s[r.value.1 - 1] == '}'
      && (forall k | 0 <= k < r.value.0 :: s[k] != '{')
      && (forall k | r.value.1 <= k < |s| :: s[k] != '}')
    ensures r.None? <==> !HasBracePair(s)
  {
    match (FirstIndex(s, '{', 0), LastIndex(s, '}', |s|))
    case (Some(i), Some(j)) => if i < j then Some((i, j + 1)) else None
    case _ => None
  }

  /** The text the greedy expression matches. */
  function GreedyCandidate(s: string): (r: Option<string>)
    ensures r.Some? ==> |r.value| >= 2 && r.value[0] == '{' && r.value[|r.value| - 1] == '}'
    ensures r.None? <==> !HasBracePair(s)
  {
    match GreedySpan(s)
    case Some((i, j)) => Some(s[i..j])
    case None => None
  }

  /** Where the whitespace run starting at `k` ends (`\s*`). */
  function SpaceEnd(s: string, k: nat): (e: nat)
    ensures k <= e && (e <= |s| || e == k)
    ensures forall m | k <= m < e :: Strings.IsSpace(Strings.Python, s[m])
    ensures e < |s| ==> !Strings.IsSpace(Strings.Python, s[e])
    decreases |s| - k
  {
    if k < |s| && Strings.IsSpace(Strings.Python, s[k]) then SpaceEnd(s, k + 1) else k
  }

  /** A backtick triple starts at `q`. */
  predicate TicksAt(s: string, q: nat) {
    q + 3 <= |s| && s[q] == '`' && s[q + 1] == '`' && s[q + 2] == '`'
  }

  /** An opening "```json" starts at `q`. */
  predicate FenceOpensAt(s: string, q: nat) {
    q + 7 <= |s| && TicksAt(s, q) && s[q + 3] == 'j' && s[q + 4] == 's' && s[q + 5] == 'o' && s[q + 6] == 'n'
  }

  /** `\s*```` matches at `k`. */
  predicate FenceCloses(s: string, k: nat) {
    TicksAt(s, SpaceEnd(s, k))
  }

  /** A `}` at `m` that the closing fence follows. */
  predicate CloseAt(s: string, m: nat) {
    m < |s| && s[m] == '}' && FenceCloses(s, m + 1)
  }

  /** The lazy `\{.*?\}` inside a fence: the first `}` at or after `k` that
      the closing fence follows. */
  function LazyClose(s: string, k: nat): (r: Option<nat>)
    ensures r.Some? ==> k <= r.value < |s| && CloseAt(s, r.value)
    ensures r.Some? ==> forall m | k <= m < r.value :: !CloseAt(s, m)
    decreases |s| - k
  {
    if k >= |s| then None
    else if CloseAt(s, k) then Some(k)
    else LazyClose(s, k + 1)
  }

  /** Group 1, the fenced alternative, tried at position `p`. */
  function FencedAt(s: string, p: nat): (r: Option<(nat, nat)>)
    ensures r.Some? ==> FenceOpensAt(s, p) && p < r.value.0 && r.value.0 + 2 <= r.value.1 <= |s|
    ensures r.Some? ==> s[r.value.0] == '{' && s[r.value.1 - 1] == '}'
  {
    if FenceOpensAt(s, p) then
      var b := SpaceEnd(s, p + 7);
      if b < |s| && s[b] == '{' then
        match LazyClose(s, b + 1)
        case Some(k) => Some((b, k + 1))
        case None => None
      else None
    else None
  }

  /** Group 2, the bare alternative, tried at position `p`: a `{` and the
      first `}` after it. */
  function BracedAt(s: string, p: nat): (r: Option<(nat, nat)>)
    ensures r.Some? ==> r.value.0 == p && p + 2 <= r.value.1 <= |s|
    ensures r.Some? ==> s[p] == '{' && s[r.value.1 - 1] == '}'
    ensures r.Some? ==> forall m | p < m < r.value.1 - 1 :: s[m] != '}'
    ensures r.None? && p < |s| && s[p] == '{' ==> forall m | p < m < |s| :: s[m] != '}'
  {
    if p < |s| && s[p] == '{' then
      match FirstIndex(s, '}', p + 1)
      case Some(k) => Some((p, k + 1))
      case None => None
    else None
  }

  /** `re.search` from position `p`: the leftmost position where either
      alternative matches, the fenced one tried first at each position. */
  function NonGreedySpanFrom(s: string, p: nat): (r: Option<(nat, nat)>)
    ensures r.Some? ==> p <= r.value.0 && r.value.0 + 2 <= r.value.1 <= |s|
    ensures r.Some? ==> s[r.value.0] == '{' && s[r.value.1 - 1] == '}'
    decreases |s| - p
  {
    if p >= |s| then None
    else
      var fenced := FencedAt(s, p);
      if fenced.Some? then fenced
      else
        var braced := BracedAt(s, p);
        if braced.Some? then braced else NonGreedySpanFrom(s, p + 1)
  }

  /** The text the Gradio app's expression captures (group 1, else group 2). */
  function NonGreedyCandidate(s: string): (r: Option<string>)
    ensures r.Some? ==> |r.value| >= 2 && r.value[0] == '{' && r.value[|r.value| - 1] == '}'
  {
    match NonGreedySpanFrom(s, 0)
    case Some((i, j)) => Some(s[i..j])
    case None => None
  }

  lemma {:induction false} NoPairNoSpan(s: string, p: nat)
    requires !HasBracePair(s)
    ensures NonGreedySpanFrom(s, p).None?
    decreases |s| - p
  {
    if p < |s| {
      NoPairNoSpan(s, p + 1);
    }
  }

  lemma {:induction false} PairGivesSpan(s: string, p: nat, i: nat, j: nat)
    requires p <= i < j < |s| && s[i] == '{' && s[j] == '}'
    ensures NonGreedySpanFrom(s, p).Some?
    decreases i - p
  {
    if p < i && FencedAt(s, p).None? && BracedAt(s, p).None? {
      PairGivesSpan(s, p + 1, i, j);
    }
  }

  /** Both expressions fail on exactly the same texts: those in which no `{`
      precedes a `}`. */
  lemma NonGreedyMatchesIffGreedy(s: string)
    ensures NonGreedyCandidate(s).None? <==> !HasBracePair(s)
    ensures NonGreedyCandidate(s).None? <==> GreedyCandidate(s).None?
  {
    if HasBracePair(s) {
      var i, j :| 0 <= i < j < |s| && s[i] == '{' && s[j] == '}';
      PairGivesSpan(s, 0, i, j);
    } else {
      NoPairNoSpan(s, 0);
    }
  }

  /** `s` never spells "```json" at or after `p`. */
  predicate NoFenceFrom(s: string, p: nat) {
    forall q | p <= q < |s| :: !FenceOpensAt(s, q)
  }

  lemma {:induction false} UnfencedSpanFrom(s: string, p: nat)
    requires NoFenceFrom(s, p)
    ensures match FirstIndex(s, '{', p)
      case Some(i) => NonGreedySpanFrom(s, p) == BracedAt(s, i)
      case None => NonGreedySpanFrom(s, p).None?
    decreases |s| - p
  {
    if p < |s| {
      assert !FenceOpensAt(s, p);
      if s[p] != '{' {
        UnfencedSpanFrom(s, p + 1);
      } else if BracedAt(s, p).None? {
        NoCloseAfterOpen(s, p, p + 1);
      }
    }
  }

  lemma {:induction false} NoCloseAfterOpen(s: string, first: nat, p: nat)
    requires first < p && forall m | first < m < |s| :: s[m] != '}'
    requires NoFenceFrom(s, p)
    ensures NonGreedySpanFrom(s, p).None?
    decreases |s| - p
  {
    if p < |s| {
      assert !FenceOpensAt(s, p);
      NoCloseAfterOpen(s, first, p + 1);
    }
  }

  /** Without a fence the candidate runs from the first `{` to the first
      `}` after it, and holds no other `}`: a nested object is cut short. */
  lemma UnfencedCandidate(s: string)
    requires NoFenceFrom(s, 0)
    ensures NonGreedyCandidate(s).Some? ==>
      exists i, j | 0 <= i < j <= |s| ::
        && NonGreedyCandidate(s).value == s[i..j]
        && BracedAt(s, i) == Some((i, j))
        && (forall k | 0 <= k < i :: s[k] != '{')
  {
    UnfencedSpanFrom(s, 0);
    var first := FirstIndex(s, '{', 0);
    if first.Some? && BracedAt(s, first.value).Some? {
      var (i, j) := BracedAt(s, first.value).value;
      assert NonGreedyCandidate(s).value == s[i..j];
    }
  }

  lemma {:induction false} SpaceEndAt(s: string, k: nat, e: nat)
    requires k <= e <= |s|
    requires forall m | k <= m < e :: Strings.IsSpace(Strings.Python, s[m])
    requires e == |s| || !Strings.IsSpace(Strings.Python, s[e])
    ensures SpaceEnd(s, k) == e
    decreases e - k
  {
    if k < e {
      SpaceEndAt(s, k + 1, e);
    }
  }

  /** A `}` inside the object, before its final `}`, is never followed by
      the closing fence when no backtick triple lies within the object. */
  lemma InnerCloseFails(s: string, b: nat, close: nat, m: nat)
    requires b < m < close < |s| && s[close] == '}'
    requires forall q | b <= q && q + 3 <= close + 1 :: !TicksAt(s, q)
    ensures !CloseAt(s, m)
  {
    var e := SpaceEnd(s, m + 1);
    assert !Strings.IsSpace(Strings.Python, s[close]);
    assert e <= close;
    if e + 3 <= close + 1 {
      assert !TicksAt(s, e);
    } else {
      assert close == e || close == e + 1 || close == e + 2;
    }
  }

  lemma {:induction false} LazyCloseFinds(s: string, k: nat, close: nat)
    requires k <= close && CloseAt(s, close)
    requires forall m | k <= m < close :: !CloseAt(s, m)
    ensures LazyClose(s, k) == Some(close)
    decreases close - k
  {
    if k < close {
      LazyCloseFinds(s, k + 1, close);
    }
  }

  /** A fence at `p`, whitespace, then an object from `b` to `close` free
      of backtick triples that the closing fence follows. */
  predicate FencedObjectAt(s: string, p: nat, b: nat, close: nat) {
    && FenceOpensAt(s, p) && p + 7 <= b < close < |s|
    && (forall m | p + 7 <= m < b :: Strings.IsSpace(Strings.Python, s[m]))
    && s[b] == '{' && CloseAt(s, close)
    && (forall q | b <= q && q + 3 <= close + 1 :: !TicksAt(s, q))
  }

  /** The fenced alternative then matches at `p` and captures exactly that
      object. */
  lemma FencedSpan(s: string, p: nat, b: nat, close: nat)
    requires FencedObjectAt(s, p, b, close)
    ensures FencedAt(s, p) == Some((b, close + 1))
  {
    SpaceEndAt(s, p + 7, b);
    NoEarlierClose(s, b, close);
    LazyCloseFinds(s, b + 1, close);
  }

  lemma NoEarlierClose(s: string, b: nat, close: nat)
    requires b < close < |s| && s[close] == '}'
    requires forall q | b <= q && q + 3 <= close + 1 :: !TicksAt(s, q)
    ensures forall m | b + 1 <= m < close :: !CloseAt(s, m)
  {
    forall m | b + 1 <= m < close
      ensures !CloseAt(s, m)
    {
      InnerCloseFails(s, b, close, m);
    }
  }

  /** A fenced match at position 0 is the candidate. */
  lemma FencedFirst(s: string, b: nat, e: nat)
    requires FencedAt(s, 0) == Some((b, e))
    ensures NonGreedyCandidate(s) == Some(s[b..e])
  {
    assert NonGreedySpanFrom(s, 0) == Some((b, e));
  }

  /** A reply that opens with a ```` ```json ```` fence around an object
      (which may itself contain `}`, but no backtick triple) yields exactly
      that object, whatever follows the closing fence. */
  lemma FencedObjectWins(ws1: string, body: string, ws2: string, rest: string)
    requires Strings.IsBlank(Strings.Python, ws1) && Strings.IsBlank(Strings.Python, ws2)
    requires |body| >= 2 && body[0] == '{' && body[|body| - 1] == '}'
    requires forall q | 0 <= q < |body| :: !TicksAt(body, q)
    ensures NonGreedyCandidate("```json" + ws1 + body + ws2 + "```" + rest) == Some(body)
  {
    var s := "```json" + ws1 + body + ws2 + "```" + rest;
    FencedMatch(s, ws1, body, ws2, rest);
    FencedFirst(s, 7 + |ws1|, 7 + |ws1| + |body|);
  }

  /** The fenced alternative matches at position 0 and spans the object. */
  lemma FencedMatch(s: string, ws1: string, body: string, ws2: string, rest: string)
    requires s == "```json" + ws1 + body + ws2 + "```" + rest
    requires Strings.IsBlank(Strings.Python, ws1) && Strings.IsBlank(Strings.Python, ws2)
    requires |body| >= 2 && body[0] == '{' && body[|body| - 1] == '}'
    requires forall q | 0 <= q < |body| :: !TicksAt(body, q)
    ensures 7 + |ws1| + |body| <= |s| && s[7 + |ws1|..7 + |ws1| + |body|] == body
    ensures FencedObjectAt(s, 0, 7 + |ws1|, 7 + |ws1| + |body| - 1)
    ensures FencedAt(s, 0) == Some((7 + |ws1|, 7 + |ws1| + |body|))
  {
    var b := 7 + |ws1|;
    var close := b + |body| - 1;
    FencedPieces(s, ws1, body, ws2, rest);
    FencedOpening(s, ws1, body, ws2, rest);
    FencedClosing(s, ws1, body, ws2, rest);
    FencedNoTicks(s, ws1, body, ws2, rest);
    FencedSpan(s, 0, b, close);
  }

  /** Where each piece of a fenced reply lies. */
  lemma FencedPieces(s: string, ws1: string, body: string, ws2: string, rest: string)
    requires s == "```json" + ws1 + body + ws2 + "```" + rest
    ensures |s| == 10 + |ws1| + |body| + |ws2| + |rest|
    ensures forall m | 0 <= m < |ws1| :: s[7 + m] == ws1[m]
    ensures forall m | 0 <= m < |body| :: s[7 + |ws1| + m] == body[m]
    ensures forall m | 0 <= m < |ws2| :: s[7 + |ws1| + |body| + m] == ws2[m]
    ensures s[7 + |ws1|..7 + |ws1| + |body|] == body
  {
    assert s == "```json" + (ws1 + (body + (ws2 + ("```" + rest))));
  }

  lemma FencedOpening(s: string, ws1: string, body: string, ws2: string, rest: string)
    requires s == "```json" + ws1 + body + ws2 + "```" + rest
    requires Strings.IsBlank(Strings.Python, ws1)
    ensures FenceOpensAt(s, 0)
    ensures forall m | 7 <= m < 7 + |ws1| :: Strings.IsSpace(Strings.Python, s[m])
  {
    assert s == "```json" + (ws1 + body + ws2 + "```" + rest);
    FencedPieces(s, ws1, body, ws2, rest);
    forall m | 7 <= m < 7 + |ws1|
      ensures Strings.IsSpace(Strings.Python, s[m])
    {
      assert s[m] == ws1[m - 7];
    }
  }

  lemma FencedClosing(s: string, ws1: string, body: string, ws2: string, rest: string)
    requires s == "```json" + ws1 + body + ws2 + "```" + rest
    requires Strings.IsBlank(Strings.Python, ws2)
    requires |body| >= 2 && body[|body| - 1] == '}'
    ensures CloseAt(s, 7 + |ws1| + |body| - 1)
  {
    var fenceAt := 7 + |ws1| + |body| + |ws2|;
    assert s == ("```json" + ws1 + body + ws2) + ("```" + rest);
    assert s[fenceAt] == '`' && s[fenceAt + 1] == '`' && s[fenceAt + 2] == '`';
    FencedPieces(s, ws1, body, ws2, rest);
    forall m | 7 + |ws1| + |body| <= m < fenceAt
      ensures Strings.IsSpace(Strings.Python, s[m])
    {
      assert s[m] == ws2[m - (7 + |ws1| + |body|)];
    }
    SpaceEndAt(s, 7 + |ws1| + |body|, fenceAt);
  }

  lemma FencedNoTicks(s: string, ws1: string, body: string, ws2: string, rest: string)
    requires s == "```json" + ws1 + body + ws2 + "```" + rest
    requires |body| >= 2 && forall q | 0 <= q < |body| :: !TicksAt(body, q)
    ensures var b := 7 + |ws1|;
      forall q | b <= q && q + 3 <= b + |body| :: !TicksAt(s, q)
  {
    var b := 7 + |ws1|;
    FencedPieces(s, ws1, body, ws2, rest);
    forall q | b <= q && q + 3 <= b + |body|
      ensures !TicksAt(s, q)
    {
      assert s[q] == body[q - b] && s[q + 1] == body[q - b + 1] && s[q + 2] == body[q - b + 2];
      assert !TicksAt(body, q - b);
    }
  }

  /** A fenced object after a preamble with no `{` and no backtick (such as
      "Here is the JSON:\n") is still the candidate: `re.search` finds
      nothing before the fence. */
  lemma FencedObjectAfterPreamble(pre: string, ws1: string, body: string, ws2: string, rest: string)
    requires forall k | 0 <= k < |pre| :: pre[k] != '{' && pre[k] != '`'
    requires Strings.IsBlank(Strings.Python, ws1) && Strings.IsBlank(Strings.Python, ws2)
    requires |body| >= 2 && body[0] == '{' && body[|body| - 1] == '}'
    requires forall q | 0 <= q < |body| :: !TicksAt(body, q)
    ensures NonGreedyCandidate(pre + ("```json" + ws1 + body + ws2 + "```" + rest)) == Some(body)
  {
    var s := "```json" + ws1 + body + ws2 + "```" + rest;
    FencedMatch(s, ws1, body, ws2, rest);
    PreambleObject(pre, s, 7 + |ws1|, 7 + |ws1| + |body|, body);
  }

  /** The object fenced at the start of `s` is still the candidate after
      the preamble. */
  lemma PreambleObject(pre: string, s: string, b: nat, e: nat, body: string)
    requires forall k | 0 <= k < |pre| :: pre[k] != '{' && pre[k] != '`'
    requires b < e <= |s| && FencedObjectAt(s, 0, b, e - 1) && s[b..e] == body
    ensures NonGreedyCandidate(pre + s) == Some(body)
  {
    var n := |pre|;
    FencedShift(pre, s, b, e - 1);
    PreambleChars(pre, s);
    SliceShift(pre, s, b, e);
    FencedAfterPreamble(pre + s, n, n + b, n + e, body);
  }

  /** A fenced object right after a preamble (the first `n` characters)
      free of `{` and backticks is the candidate. */
  lemma FencedAfterPreamble(x: string, n: nat, i: nat, j: nat, body: string)
    requires n < i < j <= |x| && forall k | 0 <= k < n :: x[k] != '{' && x[k] != '`'
    requires FencedObjectAt(x, n, i, j - 1) && x[i..j] == body
    ensures NonGreedyCandidate(x) == Some(body)
  {
    FencedSpan(x, n, i, j - 1);
    FencedSpanFrom(x, n, i, j);
    PreambleCandidate(x, n, i, j, body);
  }

  lemma PreambleChars(pre: string, s: string)
    requires forall k | 0 <= k < |pre| :: pre[k] != '{' && pre[k] != '`'
    ensures forall k | 0 <= k < |pre| :: (pre + s)[k] != '{' && (pre + s)[k] != '`'
  {
    forall k | 0 <= k < |pre|
      ensures (pre + s)[k] != '{' && (pre + s)[k] != '`'
    {
      assert (pre + s)[k] == pre[k];
    }
  }

  /** A match right after a preamble (the first `n` characters) free of `{`
      and backticks is the candidate. */
  lemma PreambleCandidate(x: string, n: nat, i: nat, j: nat, body: string)
    requires n < |x| && forall k | 0 <= k < n :: x[k] != '{' && x[k] != '`'
    requires NonGreedySpanFrom(x, n) == Some((i, j))
    requires j <= |x| && i <= j && x[i..j] == body
    ensures NonGreedyCandidate(x) == Some(body)
  {
    SkipPreamble(x, n, 0);
    SpanCandidate(x, i, j);
  }

  /** A fenced match at `p` is the match from `p`. */
  lemma FencedSpanFrom(s: string, p: nat, i: nat, j: nat)
    requires p < |s| && FencedAt(s, p) == Some((i, j))
    ensures NonGreedySpanFrom(s, p) == Some((i, j))
  {
  }

  /** The match from the start is the candidate. */
  lemma SpanCandidate(s: string, i: nat, j: nat)
    requires NonGreedySpanFrom(s, 0) == Some((i, j))
    ensures j <= |s| && NonGreedyCandidate(s) == Some(s[i..j])
  {
  }

  /** The same object is found shifted by the preamble's length. */
  lemma FencedShift(pre: string, s: string, b: nat, close: nat)
    requires FencedObjectAt(s, 0, b, close)
    ensures FencedObjectAt(pre + s, |pre|, |pre| + b, |pre| + close)
  {
    var x, n := pre + s, |pre|;
    FenceOpensShift(pre, s);
    CloseShift(pre, s, close);
    forall m | n + 7 <= m < n + b
      ensures Strings.IsSpace(Strings.Python, x[m])
    {
      assert x[m] == s[m - n];
    }
    forall q | n + b <= q && q + 3 <= n + close + 1
      ensures !TicksAt(x, q)
    {
      TicksShift(pre, s, q - n);
    }
    assert x[n + b] == s[b];
  }

  lemma SliceShift(pre: string, s: string, i: nat, j: nat)
    requires i <= j <= |s|
    ensures (pre + s)[|pre| + i..|pre| + j] == s[i..j]
  {
  }

  /** Positions before the fence hold neither `{` nor a backtick, so
      neither alternative matches there. */
  lemma {:induction false} SkipPreamble(x: string, n: nat, p: nat)
    requires n < |x| && p <= n
    requires forall k | p <= k < n :: x[k] != '{' && x[k] != '`'
    ensures NonGreedySpanFrom(x, p) == NonGreedySpanFrom(x, n)
    decreases n - p
  {
    if p < n {
      assert FencedAt(x, p).None?;
      assert BracedAt(x, p).None?;
      SkipPreamble(x, n, p + 1);
    }
  }

  /** The fenced alternative at the start of `s` matches the same way once
      `s` follows a preamble, shifted by its length. */
  lemma FenceOpensShift(pre: string, s: string)
    ensures FenceOpensAt(pre + s, |pre|) == FenceOpensAt(s, 0)
  {
    var x, n := pre + s, |pre|;
    TicksShift(pre, s, 0);
    if 7 <= |s| {
      assert x[n + 3] == s[3] && x[n + 4] == s[4] && x[n + 5] == s[5] && x[n + 6] == s[6];
    }
  }

  lemma TicksShift(pre: string, s: string, q: nat)
    ensures TicksAt(pre + s, |pre| + q) == TicksAt(s, q)
  {
    var x, n := pre + s, |pre|;
    if q + 3 <= |s| {
      assert x[n + q] == s[q] && x[n + q + 1] == s[q + 1] && x[n + q + 2] == s[q + 2];
    }
  }

  lemma {:induction false} SpaceEndShift(pre: string, s: string, k: nat)
    requires k <= |s|
    ensures SpaceEnd(pre + s, |pre| + k) == |pre| + SpaceEnd(s, k)
    decreases |s| - k
  {
    if k < |s| {
      assert (pre + s)[|pre| + k] == s[k];
      if Strings.IsSpace(Strings.Python, s[k]) {
        SpaceEndShift(pre, s, k + 1);
      }
    }
  }

  lemma CloseShift(pre: string, s: string, m: nat)
    ensures CloseAt(pre + s, |pre| + m) == CloseAt(s, m)
  {
    if m < |s| {
      assert (pre + s)[|pre| + m] == s[m];
      SpaceEndShift(pre, s, m + 1);
      TicksShift(pre, s, SpaceEnd(s, m + 1));
    }
  }

  // ---------------------------------------------------------------------
  // Python's parse-then-extract fallback
  // ---------------------------------------------------------------------

  /** How the Python analyzers' `json.loads(content)`, and on a decode error
      `json.loads` of the greedy match, ends: a value, no match at all, or
      the decode error of the matched text (which escapes to the caller). */
  datatype Extraction = Decoded(value: Json) | NoObject | Undecodable(message: string)

  function LoadsWithFallback(t: string, parse: string -> ParseOutcome): Extraction {
    match parse(t)
    case Parsed(v) => Decoded(v)
    case DecodeError(_) =>
      match GreedyCandidate(t)
      case None => NoObject
      case Some(c) =>
        match parse(c)
        case Parsed(v) => Decoded(v)
        case DecodeError(m) => Undecodable(m)
  }

  /** The fallback in terms of the text: a text that parses is the value as
      it is; otherwise there is no match exactly when no `{` precedes a `}`,
      and the second parse sees the text from its first `{` to its last `}`. */
  lemma LoadsWithFallbackSpec(t: string, parse: string -> ParseOutcome)
    ensures parse(t).Parsed? ==> LoadsWithFallback(t, parse) == Decoded(parse(t).value)
    ensures parse(t).DecodeError? ==> (LoadsWithFallback(t, parse) == NoObject <==> !HasBracePair(t))
    ensures parse(t).DecodeError? && HasBracePair(t) ==>
      exists i, j | 0 <= i < j <= |t| ::
        && t[i] == '{' && t[j - 1] == '}'
        && (forall k | 0 <= k < i :: t[k] != '{')
        && (forall k | j <= k < |t| :: t[k] != '}')
        && LoadsWithFallback(t, parse)
             == (match parse(t[i..j]) case Parsed(v) => Decoded(v) case DecodeError(m) => Undecodable(m))
  {
    if parse(t).DecodeError? && HasBracePair(t) {
      var (i, j) := GreedySpan(t).value;
      assert GreedyCandidate(t) == Some(t[i..j]);
    }
  }
}
