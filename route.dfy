/** The Next.js analysis endpoint: collecting Reddit discussions about a
    product (four searches, at most six accepted posts, up to fifteen
    comments each), asking Gemini for an analysis, and mapping every outcome
    to an HTTP status and body. Every network exchange is an input: the
    token exchange is a value, a search is a function from the query text
    to the posts it lists, the comment fetch is a function from a post's
    permalink to the comment bodies it returns, and the Gemini call is a
    function from key and prompt to its reply. */
module AnalyzeRoute {
  import opened Wrappers
  import opened Seqs
  import opened Reddit
  import opened Json
  import Strings
  import LlmText

  // ---------------------------------------------------------------------
  // Collecting discussions
  // ---------------------------------------------------------------------

  /** The source entry for an accepted post: its link is built from the
      permalink, not from the `url` used to recognise repeats. */
  function Cite(p: Post): (r: Citation)
    ensures r.title == p.title && r.subreddit == p.subreddit && r.score == p.score
    ensures r.url == "https://reddit.com" + p.permalink
  {
    Citation(p.title, "https://reddit.com" + p.permalink, p.subreddit, p.score)
  }

  /** The text blocks an accepted post contributes: its header, then the
      first fifteen comments longer than 20 characters, each cut to 1500. */
  function PostBlocks(p: Post, fetch: string -> seq<string>): (r: seq<string>)
    ensures 1 <= |r| <= 16 && r[0] == PostHeader(p)
  {
    [PostHeader(p)] + CommentBlocks(fetch(p.permalink), LongerThan20, 15, Some(1500))
  }

  /** The collector's state: the text blocks, the sources, the urls seen. */
  datatype Collected = Collected(blocks: seq<string>, sources: seq<Citation>, seen: set<string>)

  function Accept(st: Collected, p: Post, fetch: string -> seq<string>): Collected {
    Collected(st.blocks + PostBlocks(p, fetch), st.sources + [Cite(p)], st.seen + {p.url})
  }

  /** The walk over one search's posts (the inner loop): stop once six
      sources exist, pass over a seen url or a post with fewer than three
      comments, accept anything else. */
  function Scan(posts: seq<Post>, st: Collected, fetch: string -> seq<string>): Collected
    decreases |posts|
  {
    if posts == [] || |st.sources| >= 6 then st
    else if posts[0].url in st.seen || posts[0].numComments < 3 then Scan(posts[1..], st, fetch)
    else Scan(posts[1..], Accept(st, posts[0], fetch), fetch)
  }

  /** The walk over the queries (the outer loop). */
  function Run(queries: seq<string>, search: string -> seq<Post>, st: Collected,
               fetch: string -> seq<string>): Collected
    decreases |queries|
  {
    if queries == [] || |st.sources| >= 6 then st
    else Run(queries[1..], search, Scan(search(queries[0]), st, fetch), fetch)
  }

  function Collect(name: string, search: string -> seq<Post>, fetch: string -> seq<string>): Collected {
    Run(Queries(name), search, Collected([], [], {}), fetch)
  }

  /** The inner loop as written: `continue` past repeats and quiet posts,
      `break` at six sources. */
  method ScanListing(posts: seq<Post>, blocks0: seq<string>, sources0: seq<Citation>,
                     seen0: set<string>, fetch: string -> seq<string>)
    returns (blocks: seq<string>, sources: seq<Citation>, seen: set<string>)
    ensures Collected(blocks, sources, seen) == Scan(posts, Collected(blocks0, sources0, seen0), fetch)
  {
    blocks, sources, seen := blocks0, sources0, seen0;
    var i := 0;
    while i < |posts|
      invariant 0 <= i <= |posts|
      invariant Scan(posts[i..], Collected(blocks, sources, seen), fetch)
        == Scan(posts, Collected(blocks0, sources0, seen0), fetch)
    {
      if |sources| >= 6 {
        break;
      }
      var post := posts[i];
      if post.url in seen {
        StepPasses(posts, i, Collected(blocks, sources, seen), fetch);
        i := i + 1;
        continue;
      }
      if post.numComments < 3 {
        StepPasses(posts, i, Collected(blocks, sources, seen), fetch);
        i := i + 1;
        continue;
      }
      ghost var before := Collected(blocks, sources, seen);
      StepAccepts(posts, i, before, fetch);
      seen := seen + {post.url};
      blocks := blocks + [PostHeader(post)];
      sources := sources + [Cite(post)];
      var comments := KeepComments(fetch(post.permalink), LongerThan20, 15, Some(1500));
      AppendAssoc(before.blocks, [PostHeader(post)], comments);
      blocks := blocks + comments;
      assert Collected(blocks, sources, seen) == Accept(before, post, fetch);
      i := i + 1;
    }
    StepStops(posts, i, Collected(blocks, sources, seen), fetch);
  }

  lemma StepPasses(posts: seq<Post>, i: nat, st: Collected, fetch: string -> seq<string>)
    requires i < |posts| && |st.sources| < 6
    requires posts[i].url in st.seen || posts[i].numComments < 3
    ensures Scan(posts[i..], st, fetch) == Scan(posts[i + 1..], st, fetch)
  {
    assert posts[i..][1..] == posts[i + 1..];
  }

  lemma StepAccepts(posts: seq<Post>, i: nat, st: Collected, fetch: string -> seq<string>)
    requires i < |posts| && |st.sources| < 6
    requires posts[i].url !in st.seen && posts[i].numComments >= 3
    ensures Scan(posts[i..], st, fetch) == Scan(posts[i + 1..], Accept(st, posts[i], fetch), fetch)
  {
    assert posts[i..][1..] == posts[i + 1..];
  }

  lemma StepStops(posts: seq<Post>, i: nat, st: Collected, fetch: string -> seq<string>)
    requires i <= |posts|
    requires i == |posts| || |st.sources| >= 6
    ensures Scan(posts[i..], st, fetch) == st
  {
  }

  /** The outer loop as written. */
  method CollectDiscussions(name: string, search: string -> seq<Post>, fetch: string -> seq<string>)
    returns (blocks: seq<string>, sources: seq<Citation>)
    ensures blocks == Collect(name, search, fetch).blocks
    ensures sources == Collect(name, search, fetch).sources
  {
    var queries := Queries(name);
    blocks, sources := [], [];
    var seen: set<string> := {};
    var k := 0;
    while k < |queries|
      invariant 0 <= k <= |queries|
      invariant Run(queries[k..], search, Collected(blocks, sources, seen), fetch) == Collect(name, search, fetch)
    {
      if |sources| >= 6 {
        break;
      }
      assert queries[k..][1..] == queries[k + 1..];
      blocks, sources, seen := ScanListing(search(queries[k]), blocks, sources, seen, fetch);
      k := k + 1;
    }
  }

  // ---------------------------------------------------------------------
  // What the collection amounts to
  // ---------------------------------------------------------------------

  /** All posts the searches list, query after query. */
  function Stream(queries: seq<string>, search: string -> seq<Post>): seq<Post>
    decreases |queries|
  {
    if queries == [] then [] else search(queries[0]) + Stream(queries[1..], search)
  }

  function BlocksOf(acc: seq<Post>, fetch: string -> seq<string>): (r: seq<string>)
    ensures |r| >= |acc|
    ensures acc != [] ==> r != [] && r[0] == PostHeader(acc[0])
  {
    if acc == [] then []
    else BlocksOf(acc[..|acc| - 1], fetch) + PostBlocks(acc[|acc| - 1], fetch)
  }

  function Cites(acc: seq<Post>): seq<Citation> {
    seq(|acc|, i requires 0 <= i < |acc| => Cite(acc[i]))
  }

  /** The state that accepting exactly the posts `acc`, in order, leaves. */
  function StateOf(acc: seq<Post>, fetch: string -> seq<string>): Collected {
    Collected(BlocksOf(acc, fetch), Cites(acc), UrlSet(acc))
  }

  lemma StateOfSnoc(acc: seq<Post>, p: Post, fetch: string -> seq<string>)
    ensures StateOf(acc + [p], fetch) == Accept(StateOf(acc, fetch), p, fetch)
  {
    assert (acc + [p])[..|acc|] == acc;
    assert Cites(acc + [p]) == Cites(acc) + [Cite(p)];
    UrlSetAppend(acc, [p]);
    UrlSetSingle(p);
  }

  lemma {:induction false} ScanSelects(posts: seq<Post>, acc: seq<Post>, fetch: string -> seq<string>)
    requires |acc| <= 6
    ensures Scan(posts, StateOf(acc, fetch), fetch)
      == StateOf(Take(acc + Select(UrlSet(acc), posts), 6), fetch)
    decreases |posts|
  {
    var sel := Select(UrlSet(acc), posts);
    if posts == [] || |acc| == 6 {
      TakeAppend(acc, sel, 6);
      assert Take(acc + sel, 6) == acc by {
        if posts == [] {
          assert acc + sel == acc;
        }
      }
    } else if Eligible(UrlSet(acc), posts[0]) {
      ScanSelects(posts[1..], acc + [posts[0]], fetch);
      ScanAccepts(posts, acc, fetch);
    } else {
      ScanSelects(posts[1..], acc, fetch);
      ScanSkips(posts, acc, fetch);
    }
  }

  lemma ScanAccepts(posts: seq<Post>, acc: seq<Post>, fetch: string -> seq<string>)
    requires posts != [] && |acc| < 6 && Eligible(UrlSet(acc), posts[0])
    ensures Scan(posts, StateOf(acc, fetch), fetch)
      == Scan(posts[1..], StateOf(acc + [posts[0]], fetch), fetch)
    ensures acc + Select(UrlSet(acc), posts)
      == (acc + [posts[0]]) + Select(UrlSet(acc + [posts[0]]), posts[1..])
  {
    var p := posts[0];
    var st := StateOf(acc, fetch);
    assert |st.sources| == |acc|;
    assert Scan(posts, st, fetch) == Scan(posts[1..], Accept(st, p, fetch), fetch);
    StateOfSnoc(acc, p, fetch);
    SelectAccepts(posts, acc);
  }

  lemma ScanSkips(posts: seq<Post>, acc: seq<Post>, fetch: string -> seq<string>)
    requires posts != [] && |acc| < 6 && !Eligible(UrlSet(acc), posts[0])
    ensures Scan(posts, StateOf(acc, fetch), fetch) == Scan(posts[1..], StateOf(acc, fetch), fetch)
    ensures Select(UrlSet(acc), posts) == Select(UrlSet(acc), posts[1..])
  {
  }

  lemma {:induction false} RunSelects(queries: seq<string>, search: string -> seq<Post>,
                                       acc: seq<Post>, fetch: string -> seq<string>)
    requires |acc| <= 6
    ensures Run(queries, search, StateOf(acc, fetch), fetch)
      == StateOf(Take(acc + Select(UrlSet(acc), Stream(queries, search)), 6), fetch)
    decreases |queries|
  {
    var all := Select(UrlSet(acc), Stream(queries, search));
    if queries == [] || |acc| == 6 {
      TakeAppend(acc, all, 6);
      assert Take(acc + all, 6) == acc by {
        if queries == [] {
          assert acc + all == acc;
        }
      }
    } else {
      var first := search(queries[0]);
      var acc1 := Take(acc + Select(UrlSet(acc), first), 6);
      assert Run(queries, search, StateOf(acc, fetch), fetch)
        == Run(queries[1..], search, Scan(first, StateOf(acc, fetch), fetch), fetch);
      ScanSelects(first, acc, fetch);
      RunSelects(queries[1..], search, acc1, fetch);
      SelectChain(acc, first, Stream(queries[1..], search), 6);
    }
  }

  /** What the collector gathers: the first six posts, in query-then-result
      order, whose url was not met before among them and which have at least
      three comments; one header block (plus its comments) and one source
      each, in that order. */
  lemma CollectSelects(name: string, search: string -> seq<Post>, fetch: string -> seq<string>)
    ensures Collect(name, search, fetch)
      == StateOf(Take(Select({}, Stream(Queries(name), search)), 6), fetch)
  {
    assert StateOf([], fetch) == Collected([], [], {});
    RunSelects(Queries(name), search, [], fetch);
    assert [] + Select({}, Stream(Queries(name), search)) == Select({}, Stream(Queries(name), search));
  }

  // ---------------------------------------------------------------------
  // The scrape as a whole
  // ---------------------------------------------------------------------

  /** The Reddit credentials read from the environment. */
  datatype RedditEnv = RedditEnv(clientId: Option<string>, clientSecret: Option<string>)

  /** How the token request ends: a token, a non-ok answer, or a request
      that threw with the given message. */
  datatype TokenExchange = Granted | Refused | Unreachable(message: string)

  /** What the scrape gives back, or the message of what it threw. */
  datatype ScrapeResult =
    | Scraped(textBlob: string, sources: seq<Citation>)
    | NotFound(error: string)
    | ScrapeThrew(message: string)

  predicate Configured(env: RedditEnv) {
    env.clientId.Some? && env.clientId.value != ""
      && env.clientSecret.Some? && env.clientSecret.value != ""
  }

  function NotFoundMessage(name: string): string {
    "No Reddit discussions found for '" + name + "'. Try a more specific name."
  }

  /** The scrape's outcome given what it collected. */
  function Conclude(name: string, st: Collected): ScrapeResult {
    if st.blocks == [] then NotFound(NotFoundMessage(name))
    else Scraped(Strings.Join(st.blocks, "\n\n"), st.sources)
  }

  function Scrape(name: string, env: RedditEnv, token: TokenExchange,
                  search: string -> seq<Post>, fetch: string -> seq<string>): ScrapeResult {
    if !Configured(env) then ScrapeThrew("Reddit API credentials not configured")
    else match token
      case Refused => ScrapeThrew("Failed to get Reddit access token")
      case Unreachable(m) => ScrapeThrew(m)
      case Granted => Conclude(name, Collect(name, search, fetch))
  }

  method ScrapeReddit(name: string, env: RedditEnv, token: TokenExchange,
                      search: string -> seq<Post>, fetch: string -> seq<string>)
    returns (r: ScrapeResult)
    ensures r == Scrape(name, env, token, search, fetch)
  {
    if !Configured(env) {
      return ScrapeThrew("Reddit API credentials not configured");
    }
    match token {
      case Refused =>
        return ScrapeThrew("Failed to get Reddit access token");
      case Unreachable(m) =>
        return ScrapeThrew(m);
      case Granted =>
    }
    var blocks, sources := CollectDiscussions(name, search, fetch);
    if |blocks| == 0 {
      r := NotFound(NotFoundMessage(name));
    } else {
      r := Scraped(Strings.Join(blocks, "\n\n"), sources);
    }
  }

  /** Missing credentials or a failed token request throw, before any
      search. */
  lemma ScrapeThrows(name: string, env: RedditEnv, token: TokenExchange,
                     search: string -> seq<Post>, fetch: string -> seq<string>)
    ensures !Configured(env) || token != Granted ==> Scrape(name, env, token, search, fetch).ScrapeThrew?
  {
  }

  /** The posts the scrape reports on. */
  function Accepted(name: string, search: string -> seq<Post>): (acc: seq<Post>)
    ensures |acc| <= 6
  {
    Take(Select({}, Stream(Queries(name), search)), 6)
  }

  /** The accepted posts have at least three comments each and no url
      twice. */
  lemma AcceptedSound(name: string, search: string -> seq<Post>)
    ensures forall p | p in Accepted(name, search) :: p.numComments >= 3
    ensures forall i, j | 0 <= i < j < |Accepted(name, search)| ::
      Accepted(name, search)[i].url != Accepted(name, search)[j].url
  {
    var all := Select({}, Stream(Queries(name), search));
    SelectSound({}, Stream(Queries(name), search));
    assert Accepted(name, search) <= all;
    assert forall p | p in Accepted(name, search) :: p in all;
  }

  /** The scrape's outcomes in the terms of the selection: it finds nothing
      exactly when no listed post is eligible, and says so naming the
      product; otherwise it returns the accepted posts' blocks joined by
      blank lines with their sources, one to six of them. */
  lemma ScrapeOutcomes(name: string, env: RedditEnv, token: TokenExchange,
                       search: string -> seq<Post>, fetch: string -> seq<string>)
    requires Configured(env) && token == Granted
    ensures var acc := Accepted(name, search);
      var r := Scrape(name, env, token, search, fetch);
      && (r.NotFound? <==> acc == [])
      && (r.NotFound? ==> r.error == NotFoundMessage(name) && Strings.Contains(r.error, name))
      && (r.Scraped? ==>
            && r.textBlob == Strings.Join(BlocksOf(acc, fetch), "\n\n")
            && r.sources == Cites(acc)
            && 1 <= |r.sources| <= 6)
  {
    CollectSelects(name, search, fetch);
    Strings.ContainsBetween("No Reddit discussions found for '", name, "'. Try a more specific name.");
  }

  // ---------------------------------------------------------------------
  // The Gemini analysis
  // ---------------------------------------------------------------------

  /** How the Gemini request ends: it threw (or its answer was not JSON),
      the answer was not ok, or an answer whose first candidate's first part
      may carry a text. */
  datatype GeminiReply = CallThrew | NotOk | Answered(text: Option<string>)

  const KeyMissing := "GEMINI_API_KEY not configured"
  const AnalysisFailed := "AI analysis failed"
  const EmptyResponse := "Empty response from AI"
  const Unparsable := "Failed to parse AI response"

  /** The analysis: the parsed reply, or an `{error}` object. A reply that
      does not parse is cut from its first `{` to its last `}` and parsed
      again; when that fails too the request counts as failed. */
  function AnalyzeWithGemini(instruction: string, blob: string, apiKey: Option<string>,
                             call: (string, string) -> GeminiReply,
                             parse: string -> Option<Json>): Json
  {
    if apiKey.None? || apiKey.value == "" then ErrorObject(KeyMissing)
    else
      match call(apiKey.value, LlmText.GeminiPrompt(instruction, blob))
      case CallThrew => ErrorObject(AnalysisFailed)
      case NotOk => ErrorObject(AnalysisFailed)
      case Answered(text) =>
        if text.None? || text.value == "" then ErrorObject(EmptyResponse)
        else
          match parse(text.value)
          case Some(v) => v
          case None =>
            match LlmText.GreedyCandidate(text.value)
            case None => ErrorObject(Unparsable)
            case Some(c) => parse(c).GetOr(ErrorObject(AnalysisFailed))
  }

  /** The key is checked before any request: without it the answer is the
      same whatever the Gemini service would have said. */
  lemma GeminiKeyFirst(instruction: string, blob: string, apiKey: Option<string>,
                       call1: (string, string) -> GeminiReply, call2: (string, string) -> GeminiReply,
                       parse: string -> Option<Json>)
    requires apiKey.None? || apiKey.value == ""
    ensures AnalyzeWithGemini(instruction, blob, apiKey, call1, parse) == ErrorObject(KeyMissing)
    ensures AnalyzeWithGemini(instruction, blob, apiKey, call1, parse)
      == AnalyzeWithGemini(instruction, blob, apiKey, call2, parse)
  {
  }

  /** Only the first 30000 characters of the text ever reach the model. */
  lemma GeminiSeesPrefix(instruction: string, blob: string, extra: string, apiKey: Option<string>,
                         call: (string, string) -> GeminiReply, parse: string -> Option<Json>)
    requires |blob| >= 30000
    ensures AnalyzeWithGemini(instruction, blob + extra, apiKey, call, parse)
      == AnalyzeWithGemini(instruction, blob, apiKey, call, parse)
  {
    assert (blob + extra)[..30000] == blob[..30000];
    assert LlmText.GeminiPrompt(instruction, blob + extra) == LlmText.GeminiPrompt(instruction, blob);
  }

  /** The reply handling in the terms of the text: a reply that parses is
      the analysis as it is; one that does not is parsed again from its
      first `{` to its last `}`, and when it holds no `{` before a `}` the
      result is the parse error. */
  lemma GeminiReplyHandling(instruction: string, blob: string, key: string, t: string,
                            call: (string, string) -> GeminiReply, parse: string -> Option<Json>)
    requires key != "" && t != ""
    requires call(key, LlmText.GeminiPrompt(instruction, blob)) == Answered(Some(t))
    ensures parse(t).Some? ==> AnalyzeWithGemini(instruction, blob, Some(key), call, parse) == parse(t).value
    ensures parse(t).None? && !LlmText.HasBracePair(t) ==>
      AnalyzeWithGemini(instruction, blob, Some(key), call, parse) == ErrorObject(Unparsable)
    ensures parse(t).None? && LlmText.HasBracePair(t) ==>
      exists i, j | 0 <= i < j <= |t| ::
        && t[i] == '{' && t[j - 1] == '}'
        && (forall k | 0 <= k < i :: t[k] != '{')
        && (forall k | j <= k < |t| :: t[k] != '}')
        && AnalyzeWithGemini(instruction, blob, Some(key), call, parse)
             == parse(t[i..j]).GetOr(ErrorObject(AnalysisFailed))
  {
    if parse(t).None? && LlmText.HasBracePair(t) {
      var (i, j) := LlmText.GreedySpan(t).value;
      assert LlmText.GreedyCandidate(t) == Some(t[i..j]);
    }
  }

  // ---------------------------------------------------------------------
  // The POST handler
  // ---------------------------------------------------------------------

  /** Everything outside the handler that its answer depends on. */
  datatype Backend = Backend(
    env: RedditEnv,
    token: TokenExchange,
    search: string -> seq<Post>,
    fetch: string -> seq<string>,
    instruction: string,
    geminiKey: Option<string>,
    call: (string, string) -> GeminiReply,
    parse: string -> Option<Json>)

  /** The request body: unreadable JSON, or a parsed value. */
  datatype RequestBody = Unreadable | Body(value: Json)

  datatype Response = Response(status: int, body: Json)

  const GenericFailure := "Something went wrong while consulting Reddit."
  const NameRequired := "Product name is required"

  function Detail(message: Json): Json {
    JObj([("detail", message)])
  }

  function CitationJson(c: Citation): Json {
    JObj([("title", JStr(c.title)), ("url", JStr(c.url)), ("subreddit", JStr(c.subreddit)), ("score", JInt(c.score))])
  }

  function SuccessBody(name: string, analysis: Json, sources: seq<Citation>): Json {
    JObj([
      ("product", JStr(name)),
      ("analysis", analysis),
      ("sources", JArr(seq(|sources|, i requires 0 <= i < |sources| => CitationJson(sources[i]))))])
  }

  /** `body.product_name`: a property of an object, nothing for any other
      value; reading it from `null` throws (`None` here, told apart by the
      caller). */
  function ProductName(v: Json): Option<Json> {
    if v.JObj? then Get(v.entries, "product_name") else None
  }

  /** The product name when it is a string that is not blank once trimmed. */
  predicate ValidName(name: Option<Json>) {
    name.Some? && name.value.JStr? && !Strings.IsBlank(Strings.JavaScript, name.value.s)
  }

  /** The answer the handler gives. Everything thrown on the way (an
      unreadable body, a `null` body, missing credentials, a failed token
      request, an `in` test on an analysis that is not an object) ends in
      the generic 500. */
  function Handle(request: RequestBody, b: Backend): Response {
    if request.Unreadable? || request.value.JNull? then Response(500, Detail(JStr(GenericFailure)))
    else
      var name := ProductName(request.value);
      if !ValidName(name) then Response(400, Detail(JStr(NameRequired)))
      else Answer(name.value.s, b)
  }

  /** The answer for a valid product name. */
  function Answer(n: string, b: Backend): Response {
    match Scrape(n, b.env, b.token, b.search, b.fetch)
    case ScrapeThrew(_) => Response(500, Detail(JStr(GenericFailure)))
    case NotFound(e) => Response(400, Detail(JStr(e)))
    case Scraped(blob, sources) =>
      Respond(n, AnalyzeWithGemini(b.instruction, blob, b.geminiKey, b.call, b.parse), sources)
  }

  /** The answer once the analysis is in: `"error" in analysis` decides,
      and throws when the analysis is not an object or an array. */
  function Respond(n: string, a: Json, sources: seq<Citation>): Response {
    match a
    case JObj(entries) =>
      (match Get(entries, "error")
       case Some(e) => Response(500, Detail(e))
       case None => Response(200, SuccessBody(n, a, sources)))
    case JArr(_) => Response(200, SuccessBody(n, a, sources))
    case _ => Response(500, Detail(JStr(GenericFailure)))
  }

  /** The handler answers 200, 400 or 500 only, and a missing, non-string
      or blank name is a 400. */
  lemma HandleStatuses(request: RequestBody, b: Backend)
    ensures Handle(request, b).status in {200, 400, 500}
    ensures request.Body? && !request.value.JNull? && !ValidName(ProductName(request.value)) ==>
      Handle(request, b) == Response(400, Detail(JStr(NameRequired)))
  {
  }

  /** A 200 needs a valid name, credentials and a token; it carries the raw
      name, an analysis without an `error` key, and one to six sources. */
  lemma HandleSuccess(request: RequestBody, b: Backend)
    requires Handle(request, b).status == 200
    ensures request.Body? && ValidName(ProductName(request.value))
    ensures Configured(b.env) && b.token == Granted
    ensures var r := Handle(request, b).body;
      && r.JObj? && |r.entries| == 3
      && r.entries[0] == ("product", ProductName(request.value).value)
      && !HasKey(r.entries[1].1, "error")
      && r.entries[2].1.JArr? && 1 <= |r.entries[2].1.items| <= 6
  {
    var n := ProductName(request.value).value.s;
    ScrapeThrows(n, b.env, b.token, b.search, b.fetch);
    ScrapeOutcomes(n, b.env, b.token, b.search, b.fetch);
  }

  /** A blank name never reaches Reddit: the answer is the same for any two
      backends. */
  lemma BlankNameShortCircuits(request: RequestBody, b1: Backend, b2: Backend)
    requires request.Body? && !ValidName(ProductName(request.value))
    ensures Handle(request, b1) == Handle(request, b2)
  {
  }

  /** With a valid name, missing Reddit credentials or a failed token
      request end in the generic 500. */
  lemma ScrapeThrowIsGeneric500(request: RequestBody, b: Backend)
    requires request.Body? && ValidName(ProductName(request.value))
    requires !Configured(b.env) || b.token != Granted
    ensures Handle(request, b) == Response(500, Detail(JStr(GenericFailure)))
  {
    ScrapeThrows(ProductName(request.value).value.s, b.env, b.token, b.search, b.fetch);
  }

  /** A valid name for which no post is accepted gets a 400 whose detail
      names the product. */
  lemma HandleNotFound(request: RequestBody, b: Backend)
    requires request.Body? && ValidName(ProductName(request.value))
    requires Configured(b.env) && b.token == Granted
    requires Accepted(ProductName(request.value).value.s, b.search) == []
    ensures Handle(request, b) == Response(400, Detail(JStr(NotFoundMessage(ProductName(request.value).value.s))))
  {
    AnswerOutcome(ProductName(request.value).value.s, b);
  }

  /** The analysis of the accepted posts' text, as the handler requests it. */
  function AnalysisOf(n: string, b: Backend): Json {
    AnalyzeWithGemini(b.instruction, Strings.Join(BlocksOf(Accepted(n, b.search), b.fetch), "\n\n"),
                      b.geminiKey, b.call, b.parse)
  }

  /** An analysis object with an `error` key becomes a 500 carrying that
      value (the missing Gemini key among them). */
  lemma HandleAnalysisError(request: RequestBody, b: Backend)
    requires request.Body? && ValidName(ProductName(request.value))
    requires Configured(b.env) && b.token == Granted
    requires var n := ProductName(request.value).value.s;
      Accepted(n, b.search) != [] && AnalysisOf(n, b).JObj? && Get(AnalysisOf(n, b).entries, "error").Some?
    ensures var n := ProductName(request.value).value.s;
      Handle(request, b) == Response(500, Detail(Get(AnalysisOf(n, b).entries, "error").value))
  {
    AnswerOutcome(ProductName(request.value).value.s, b);
  }

  /** The converse of HandleSuccess: accepted posts and an analysis object
      without `error` (or an array) give the 200 with the raw name, the
      analysis and the accepted posts' sources. */
  lemma HandleSucceeds(request: RequestBody, b: Backend)
    requires request.Body? && ValidName(ProductName(request.value))
    requires Configured(b.env) && b.token == Granted
    requires var n := ProductName(request.value).value.s;
      && Accepted(n, b.search) != []
      && (AnalysisOf(n, b).JArr? || (AnalysisOf(n, b).JObj? && Get(AnalysisOf(n, b).entries, "error").None?))
    ensures var n := ProductName(request.value).value.s;
      Handle(request, b) == Response(200, SuccessBody(n, AnalysisOf(n, b), Cites(Accepted(n, b.search))))
  {
    AnswerOutcome(ProductName(request.value).value.s, b);
  }

  /** An analysis that is neither an object nor an array makes the `in`
      test throw, which ends in the generic 500. */
  lemma HandleAnalysisNotObject(request: RequestBody, b: Backend)
    requires request.Body? && ValidName(ProductName(request.value))
    requires Configured(b.env) && b.token == Granted
    requires var n := ProductName(request.value).value.s;
      Accepted(n, b.search) != [] && !AnalysisOf(n, b).JObj? && !AnalysisOf(n, b).JArr?
    ensures Handle(request, b) == Response(500, Detail(JStr(GenericFailure)))
  {
    AnswerOutcome(ProductName(request.value).value.s, b);
  }

  lemma AnswerOutcome(n: string, b: Backend)
    requires Configured(b.env) && b.token == Granted
    ensures var acc := Accepted(n, b.search);
      Answer(n, b)
        == if acc == [] then Response(400, Detail(JStr(NotFoundMessage(n))))
           else Respond(n, AnalysisOf(n, b), Cites(acc))
  {
    ScrapeOutcomes(n, b.env, b.token, b.search, b.fetch);
  }
}
