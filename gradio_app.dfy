/** The Gradio application: a category scraper that returns one text (or an
    `ERROR:`/`NOTICE:` message), a Groq analysis that pulls a JSON object out
    of the reply with a non-greedy expression and fills in missing keys, and
    the pipeline that validates the form, cleans and truncates the scraped
    text and renders the conclusion with Markdown pros and cons. */
module GradioApp {
  import opened Wrappers
  import opened Seqs
  import opened Reddit
  import opened Json
  import opened LlmText
  import Strings

  /** The subreddits of each category; this table lists "backpacks" under
      both fashion and outdoors. */
  const Categories: map<string, seq<string>> := map[
    "General" := ["BuyItForLife", "GoodValue", "productreviews", "Frugal", "HelpMeFind", "whatshouldibuy"],
    "Technology & Electronics" := [
      "technology", "gadgets", "hardware", "laptops", "suggestalaptop", "buildapc", "pcmasterrace", "Android",
      "ios", "smartphones", "headphones", "audiophile", "MouseReview", "Monitors", "techsupport", "apple",
      "Microsoft", "GooglePixel", "HomeAutomation", "Networking"],
    "Home Goods & Appliances" := [
      "Appliances", "HomeImprovement", "vacuumcleaners", "Coffee", "Cooking", "BuyItForLife", "CleaningTips",
      "furniture", "Mattress", "homeautomation"],
    "Fashion & Apparel" := [
      "malefashionadvice", "femalefashionadvice", "OUTFITS", "fashionadvice", "goodyearwelt", "rawdenim",
      "Watches", "streetwear", "frugalmalefashion", "frugalfemalefashion", "backpacks"],
    "Beauty & Personal Care" := [
      "SkincareAddiction", "MakeupAddiction", "AsianBeauty", "beauty", "wicked_edge", "fragrance",
      "HaircareScience", "brownbeauty", "VeganBeauty", "CrueltyFreeMUA"],
    "Outdoors, Sports & Travel Gear" := [
      "CampingandHiking", "CampingGear", "outdoors", "hiking", "Backpacking", "Ultralight",
      "WildernessBackpacking", "Cycling", "RunningShoeGeeks", "onebag", "travel", "skiing",
      "snowboarding", "Fishing", "ClimbingGear", "backpacks"],
    "Hobbies & Specific Interests" := [
      "Gaming", "pcgaming", "photography", "audiophile", "headphones", "MechanicalKeyboards", "books",
      "suggestmeabook", "boardgames", "lego", "gardening", "DIY", "Gunpla", "Homebrewing"]
  ]

  // ---------------------------------------------------------------------
  // scrape_reddit
  // ---------------------------------------------------------------------

  /** Building the Reddit client: it works, fails with a response error, or
      raises some other exception. */
  datatype ClientBuild = Built | ResponseFailed | BuildRaised(message: string)

  const ErrorTag := "ERROR"
  const NoticeTag := "NOTICE"

  /** A scrape message: its tag, a colon, a space and the text. */
  function Tagged(tag: string, message: string): string {
    tag + ":" + " " + message
  }

  const InvalidCategory := Tagged(ErrorTag, "Invalid category selected.")
  const AccessFailed := Tagged(ErrorTag, "Reddit API access failed. " + "Check credentials or network.")
  const NothingFound := Tagged(NoticeTag, "No relevant discussions found in the " + "selected category's subreddits.")

  function UnexpectedScrapeError(message: string): string {
    Tagged(ErrorTag, "An unexpected error occurred during scraping: " + message)
  }

  function TitlePiece(p: Post, sub: string): (r: string)
    ensures "Post Title (r/" <= r
  {
    "Post Title (r/" + sub + "): " + p.title
  }

  /** A submission's own pieces: the title line, then the body line when the
      body is not empty. */
  function PostPieces(p: Post, sub: string): (r: seq<string>)
    ensures |r| == (if p.selftext == "" then 1 else 2)
    ensures r[0] == TitlePiece(p, sub)
    ensures p.selftext != "" ==> r[1] == "Post Body: " + p.selftext
  {
    [TitlePiece(p, sub)] + (if p.selftext != "" then ["Post Body: " + p.selftext] else [])
  }

  /** The walk over one subreddit's submissions; a raise while loading
      comments keeps that submission's own pieces and abandons the rest of
      the subreddit. */
  function ScanSub(subs: seq<Submission>, sub: string, pieces: seq<string>, maxComments: nat): (r: seq<string>)
    ensures pieces <= r
    ensures subs != [] ==> |r| > |pieces|
    decreases |subs|
  {
    if subs == [] then pieces
    else
      var added := pieces + PostPieces(subs[0].post, sub);
      match subs[0].comments
      case LoadRaised => added
      case Loaded(bodies) =>
        ScanSub(subs[1..], sub, added + CommentBlocks(bodies, AnyPresent, maxComments, None), maxComments)
  }

  /** The pieces one submission contributes when its comments load: its
      own pieces, then its first `maxComments` present comments. */
  function SubmissionPieces(s: Submission, sub: string, maxComments: nat): seq<string>
    requires s.comments.Loaded?
  {
    PostPieces(s.post, sub) + CommentBlocks(s.comments.bodies, AnyPresent, maxComments, None)
  }

  /** The pieces of every submission, in order. */
  function PiecesIn(subs: seq<Submission>, sub: string, maxComments: nat): seq<string>
    requires NoRaise(subs)
    decreases |subs|
  {
    if subs == [] then [] else SubmissionPieces(subs[0], sub, maxComments) + PiecesIn(subs[1..], sub, maxComments)
  }

  /** A submission whose comments load passes the walk on to the next one. */
  lemma ScanSubStep(subs: seq<Submission>, sub: string, pieces: seq<string>, maxComments: nat)
    requires subs != [] && subs[0].comments.Loaded?
    ensures ScanSub(subs, sub, pieces, maxComments)
      == ScanSub(subs[1..], sub, pieces + SubmissionPieces(subs[0], sub, maxComments), maxComments)
  {
    AppendAssoc(pieces, PostPieces(subs[0].post, sub),
                CommentBlocks(subs[0].comments.bodies, AnyPresent, maxComments, None));
  }

  /** Without a raise, a subreddit walk appends, submission by submission,
      the title piece, the body piece when there is a body, and the capped
      present comments. */
  lemma {:induction false} ScanSubPieces(subs: seq<Submission>, sub: string, pieces: seq<string>, maxComments: nat)
    requires NoRaise(subs)
    ensures ScanSub(subs, sub, pieces, maxComments) == pieces + PiecesIn(subs, sub, maxComments)
    decreases |subs|
  {
    if subs == [] {
      assert pieces + PiecesIn(subs, sub, maxComments) == pieces;
    } else {
      var more := SubmissionPieces(subs[0], sub, maxComments);
      assert NoRaise(subs[1..]);
      ScanSubStep(subs, sub, pieces, maxComments);
      ScanSubPieces(subs[1..], sub, pieces + more, maxComments);
      AppendAssoc(pieces, more, PiecesIn(subs[1..], sub, maxComments));
    }
  }

  /** A raise while loading the comments of submission `k` keeps that
      submission's own pieces and drops everything after it. */
  lemma {:induction false} ScanSubRaise(subs: seq<Submission>, sub: string, pieces: seq<string>, maxComments: nat,
                                        k: nat)
    requires k < |subs| && NoRaise(subs[..k]) && subs[k].comments.LoadRaised?
    ensures ScanSub(subs, sub, pieces, maxComments)
      == pieces + PiecesIn(subs[..k], sub, maxComments) + PostPieces(subs[k].post, sub)
    decreases k
  {
    if k == 0 {
      assert PiecesIn(subs[..0], sub, maxComments) == [];
    } else {
      var more := SubmissionPieces(subs[0], sub, maxComments);
      PiecesPrefixStep(subs, sub, maxComments, k);
      ScanSubStep(subs, sub, pieces, maxComments);
      ScanSubRaise(subs[1..], sub, pieces + more, maxComments, k - 1);
      AppendAssoc(pieces, more, PiecesIn(subs[1..][..k - 1], sub, maxComments));
    }
  }

  lemma PiecesPrefixStep(subs: seq<Submission>, sub: string, maxComments: nat, k: nat)
    requires 0 < k < |subs| && NoRaise(subs[..k])
    ensures subs[0].comments.Loaded? && NoRaise(subs[1..][..k - 1])
    ensures PiecesIn(subs[..k], sub, maxComments)
      == SubmissionPieces(subs[0], sub, maxComments) + PiecesIn(subs[1..][..k - 1], sub, maxComments)
  {
    assert subs[..k][0] == subs[0];
    assert subs[..k][1..] == subs[1..][..k - 1];
  }

  /** The walk over every subreddit of the category; there is no overall cap. */
  function Walk(names: seq<string>, product: string, search: (string, string) -> seq<Submission>,
                pieces: seq<string>, maxComments: nat): seq<string>
    decreases |names|
  {
    if names == [] then pieces
    else
      var clean := RemoveRSlash(names[0]);
      Walk(names[1..], product, search, ScanSub(search(clean, product), clean, pieces, maxComments), maxComments)
  }

  /** The category has a non-empty list of subreddits in `table`. */
  predicate KnownIn(table: map<string, seq<string>>, category: string) {
    category in table && table[category] != []
  }

  /** What `scrape_reddit` returns: the pieces joined by blank lines, or a
      message starting `ERROR:` or `NOTICE:`. */
  function ScrapeText(table: map<string, seq<string>>, product: string, category: string, client: ClientBuild,
                      search: (string, string) -> seq<Submission>, maxComments: nat): string
  {
    if !KnownIn(table, category) then InvalidCategory
    else
      match client
      case ResponseFailed => AccessFailed
      case BuildRaised(m) => UnexpectedScrapeError(m)
      case Built =>
        var pieces := Walk(table[category], product, search, [], maxComments);
        if pieces == [] then NothingFound else Strings.Join(pieces, "\n\n")
  }

  /** The loop over one subreddit's submissions as written. */
  method ScanSubreddit(subs: seq<Submission>, sub: string, pieces0: seq<string>, maxComments: nat)
    returns (pieces: seq<string>)
    ensures pieces == ScanSub(subs, sub, pieces0, maxComments)
  {
    pieces := pieces0;
    var i := 0;
    while i < |subs|
      invariant 0 <= i <= |subs|
      invariant ScanSub(subs[i..], sub, pieces, maxComments) == ScanSub(subs, sub, pieces0, maxComments)
    {
      assert subs[i..][1..] == subs[i + 1..];
      var submission := subs[i];
      ghost var before := pieces;
      pieces := pieces + [TitlePiece(submission.post, sub)];
      if submission.post.selftext != "" {
        pieces := pieces + ["Post Body: " + submission.post.selftext];
      }
      assert pieces == before + PostPieces(submission.post, sub);
      match submission.comments {
        case LoadRaised =>
          break;
        case Loaded(bodies) =>
          var lines := KeepComments(bodies, AnyPresent, maxComments, None);
          pieces := pieces + lines;
      }
      i := i + 1;
    }
  }

  /** The scrape as written, over the subreddits `table` lists. */
  method ScrapeReddit(table: map<string, seq<string>>, product: string, category: string, client: ClientBuild,
                      search: (string, string) -> seq<Submission>, maxComments: nat)
    returns (text: string)
    ensures text == ScrapeText(table, product, category, client, search, maxComments)
  {
    if category !in table || table[category] == [] {
      return InvalidCategory;
    }
    var names := table[category];
    if client.ResponseFailed? {
      return AccessFailed;
    } else if client.BuildRaised? {
      return UnexpectedScrapeError(client.message);
    }
    var pieces: seq<string> := [];
    var k := 0;
    while k < |names|
      invariant 0 <= k <= |names|
      invariant Walk(names[k..], product, search, pieces, maxComments) == Walk(names, product, search, [], maxComments)
    {
      assert names[k..][1..] == names[k + 1..];
      var clean := RemoveRSlash(names[k]);
      pieces := ScanSubreddit(search(clean, product), clean, pieces, maxComments);
      k := k + 1;
    }
    if |pieces| == 0 {
      text := NothingFound;
    } else {
      text := Strings.Join(pieces, "\n\n");
    }
  }

  /** Some submission was listed in one of the searched subreddits. */
  predicate AnyListed(names: seq<string>, product: string, search: (string, string) -> seq<Submission>) {
    exists n | n in names :: search(RemoveRSlash(n), product) != []
  }

  lemma {:induction false} WalkEmpty(names: seq<string>, product: string, search: (string, string) -> seq<Submission>,
                                     pieces: seq<string>, maxComments: nat)
    ensures pieces <= Walk(names, product, search, pieces, maxComments)
    ensures Walk(names, product, search, pieces, maxComments) == pieces <==> !AnyListed(names, product, search)
    decreases |names|
  {
    if names != [] {
      var clean := RemoveRSlash(names[0]);
      var next := ScanSub(search(clean, product), clean, pieces, maxComments);
      WalkEmpty(names[1..], product, search, next, maxComments);
      assert names == [names[0]] + names[1..];
      if AnyListed(names[1..], product, search) {
        var n :| n in names[1..] && search(RemoveRSlash(n), product) != [];
        assert n in names;
      }
    }
  }

  /** The scrape's outcomes: the category is checked first; a client that
      builds leads to the `NOTICE:` message exactly when no searched
      subreddit listed a submission, and otherwise to a text that starts
      with a title line, so is never taken for an `ERROR:` or `NOTICE:`. */
  lemma ScrapeOutcomes(table: map<string, seq<string>>, product: string, category: string, client: ClientBuild,
                       search: (string, string) -> seq<Submission>, maxComments: nat)
    ensures !KnownIn(table, category) ==> ScrapeText(table, product, category, client, search, maxComments) == InvalidCategory
    ensures KnownIn(table, category) && client == Built ==>
      (ScrapeText(table, product, category, client, search, maxComments) == NothingFound
       <==> !AnyListed(table[category], product, search))
    ensures KnownIn(table, category) && client == Built && AnyListed(table[category], product, search) ==>
      "Post Title (r/" <= ScrapeText(table, product, category, client, search, maxComments)
  {
    if KnownIn(table, category) && client == Built {
      var names := table[category];
      var pieces := Walk(names, product, search, [], maxComments);
      WalkEmpty(names, product, search, [], maxComments);
      if pieces != [] {
        FirstPieceIsTitle(names, product, search, [], maxComments);
        Strings.JoinStartsWithFirst(pieces, "\n\n");
        assert "Post Title (r/" <= pieces[0];
        assert NothingFound[0] == 'N';
      }
    }
  }

  lemma {:induction false} FirstPieceIsTitle(names: seq<string>, product: string,
                                             search: (string, string) -> seq<Submission>,
                                             pieces: seq<string>, maxComments: nat)
    requires pieces == [] || "Post Title (r/" <= pieces[0]
    ensures var r := Walk(names, product, search, pieces, maxComments);
      r == [] || "Post Title (r/" <= r[0]
    decreases |names|
  {
    if names != [] {
      var clean := RemoveRSlash(names[0]);
      var subs := search(clean, product);
      var next := ScanSub(subs, clean, pieces, maxComments);
      if pieces == [] && subs != [] {
        ScanSubFirst(subs, clean, maxComments);
      }
      FirstPieceIsTitle(names[1..], product, search, next, maxComments);
    }
  }

  lemma ScanSubFirst(subs: seq<Submission>, sub: string, maxComments: nat)
    requires subs != []
    ensures ScanSub(subs, sub, [], maxComments)[0] == TitlePiece(subs[0].post, sub)
  {
    var added := [] + PostPieces(subs[0].post, sub);
    assert added[0] == TitlePiece(subs[0].post, sub);
  }

  // ---------------------------------------------------------------------
  // analyze_text_with_groq
  // ---------------------------------------------------------------------

  /** How the Groq request ends: an API error (whose status code only
      status errors carry), another exception (a missing key among them),
      or the reply's content, which may be absent. */
  datatype GroqReply = ApiError(message: string, status: Option<int>) | Unexpected(message: string)
                     | Content(text: Option<string>)

  /** The analysis dictionary; building it can itself raise out of the
      function (an API error without a status code). */
  datatype Analysis = Analysis(conclusion: Json, pros: Json, cons: Json) | AnalysisRaised

  function UserPrompt(text: string): string {
    "Here are user discussions about a product:\n\n" + text + "\n\nSummarize as described above. Output only the JSON object."
  }

  /** The two openings the pipeline recognises as a failed analysis. */
  const ErrorOpening := "Error during analysis"
  const FailedOpening := "Analysis failed"

  const JsonModeUnsupported := FailedOpening + ": Model may not support JSON mode."
  const NoJsonFound := FailedOpening + ": LLM response did not contain JSON despite format request."
  const NoneContent := ErrorOpening + ": expected string or bytes-like object, got 'NoneType'"

  function InvalidJson(message: string): string {
    FailedOpening + ": LLM output was not valid JSON despite format request. Error: " + message
  }

  function StatusError(status: int): string {
    ErrorOpening + ": Groq API Error (" + Strings.IntToString(status) + ")"
  }

  function UnexpectedError(message: string): string {
    ErrorOpening + ": " + message
  }

  /** A failed analysis: the message as conclusion and no pros or cons. */
  function Failure(message: string): Analysis {
    Analysis(JStr(message), JArr([]), JArr([]))
  }

  /** The object's three keys, with their defaults when missing. */
  function Fields(entries: seq<(string, Json)>): Analysis {
    Analysis(Get(entries, "conclusion").GetOr(JStr("No conclusion found.")),
             Get(entries, "pros").GetOr(JArr([])),
             Get(entries, "cons").GetOr(JArr([])))
  }

  function AnalyzeText(text: string, call: string -> GroqReply, parse: string -> ParseOutcome): Analysis {
    match call(UserPrompt(text))
    case ApiError(m, status) =>
      if Strings.Contains(m, "response_format") then Failure(JsonModeUnsupported)
      else if status.Some? then Failure(StatusError(status.value))
      else AnalysisRaised
    case Unexpected(m) => Failure(UnexpectedError(m))
    case Content(None) => Failure(NoneContent)
    case Content(Some(t)) =>
      match NonGreedyCandidate(t)
      case None => Failure(NoJsonFound)
      case Some(c) =>
        match parse(c)
        case DecodeError(m) => Failure(InvalidJson(m))
        case Parsed(v) =>
          if v.JObj? then Fields(v.entries)
          else Failure(UnexpectedError("'" + PyTypeName(v) + "' object has no attribute 'get'"))
  }

  /** A conclusion the pipeline treats as an analysis error. */
  predicate IsErrorConclusion(c: string) {
    ErrorOpening <= c || FailedOpening <= c
  }

  /** The analysis raises exactly on an API error that neither mentions
      `response_format` nor carries a status code. Every failure it reports
      carries an error conclusion and empty pros and cons; every other result
      is the decoded object's keys, defaulted when missing. */
  lemma AnalysisOutcomes(text: string, call: string -> GroqReply, parse: string -> ParseOutcome)
    ensures var reply := call(UserPrompt(text));
      (AnalyzeText(text, call, parse).AnalysisRaised? <==>
         reply.ApiError? && reply.status.None? && !Strings.Contains(reply.message, "response_format"))
    ensures var a := AnalyzeText(text, call, parse);
      a.Analysis? ==>
        || (a.conclusion.JStr? && IsErrorConclusion(a.conclusion.s) && a.pros == JArr([]) && a.cons == JArr([]))
        || exists t, c, entries :: call(UserPrompt(text)) == Content(Some(t)) && NonGreedyCandidate(t) == Some(c)
             && parse(c) == Parsed(JObj(entries)) && a == Fields(entries)
    ensures var a := AnalyzeText(text, call, parse);
      var reply := call(UserPrompt(text));
      reply.Content? && reply.text.Some? ==>
        match NonGreedyCandidate(reply.text.value)
        case None => a == Failure(NoJsonFound) && FailedOpening <= NoJsonFound
        case Some(c) =>
          match parse(c)
          case DecodeError(m) => a == Failure(InvalidJson(m)) && FailedOpening <= InvalidJson(m)
          case Parsed(v) => v.JObj? ==> a == Fields(v.entries)
  {
    match call(UserPrompt(text))
    case ApiError(m, status) =>
      assert FailedOpening <= JsonModeUnsupported;
      if status.Some? {
        assert ErrorOpening <= StatusError(status.value);
      }
    case Unexpected(m) =>
      assert ErrorOpening <= UnexpectedError(m);
    case Content(None) =>
      assert ErrorOpening <= NoneContent;
    case Content(Some(t)) =>
      match NonGreedyCandidate(t)
      case None =>
        assert FailedOpening <= NoJsonFound;
      case Some(c) =>
        match parse(c)
        case DecodeError(m) =>
          assert FailedOpening <= InvalidJson(m);
        case Parsed(v) =>
          if v.JObj? {
            assert AnalyzeText(text, call, parse) == Fields(v.entries);
          } else {
            assert ErrorOpening <= UnexpectedError("'" + PyTypeName(v) + "' object has no attribute 'get'");
          }
  }

  /** Missing keys take their defaults; present ones keep their last value. */
  lemma FieldsDefaults(entries: seq<(string, Json)>)
    ensures HasKey(JObj(entries), "conclusion") ==> Fields(entries).conclusion == Get(entries, "conclusion").value
    ensures !HasKey(JObj(entries), "conclusion") ==> Fields(entries).conclusion == JStr("No conclusion found.")
    ensures (forall i | 0 <= i < |entries| :: entries[i].0 != "pros") ==> Fields(entries).pros == JArr([])
    ensures (forall i | 0 <= i < |entries| :: entries[i].0 != "cons") ==> Fields(entries).cons == JArr([])
    ensures HasKey(JObj(entries), "pros") ==> Fields(entries).pros == Get(entries, "pros").value
    ensures HasKey(JObj(entries), "cons") ==> Fields(entries).cons == Get(entries, "cons").value
  {
  }

  /** The response-format diagnosis wins over the status code. */
  lemma ResponseFormatFirst(text: string, call: string -> GroqReply, parse: string -> ParseOutcome,
                            m: string, status: Option<int>)
    requires call(UserPrompt(text)) == ApiError(m, status)
    ensures Strings.Contains(m, "response_format") ==> AnalyzeText(text, call, parse) == Failure(JsonModeUnsupported)
    ensures !Strings.Contains(m, "response_format") && status.Some? ==>
      AnalyzeText(text, call, parse).conclusion == JStr(StatusError(status.value))
  {
  }

  // ---------------------------------------------------------------------
  // analyze_product_pipeline
  // ---------------------------------------------------------------------

  const MaxInputChars := 38500

  /** The three outputs shown, or an exception that escapes the pipeline. */
  datatype Shown = Shown(conclusion: string, pros: string, cons: string) | Crashed

  /** What iterating a value yields, shown with `str`: a list's items, a
      string's characters, a dict's keys. Numbers and booleans cannot be
      iterated. */
  function Items(v: Json): Option<seq<string>> {
    match v
    case JArr(items) => Some(seq(|items|, i requires 0 <= i < |items| => PyStr(items[i])))
    case JStr(s) => Some(seq(|s|, i requires 0 <= i < |s| => [s[i]]))
    case JObj(entries) => Some(Keys(entries))
    case _ => None
  }

  function Bullets(xs: seq<string>): seq<string> {
    seq(|xs|, i requires 0 <= i < |xs| => "- " + xs[i])
  }

  /** A Markdown section for the pros or the cons. */
  function Section(heading: string, v: Json): Option<string> {
    if !Truthy(v) then Some("### " + heading + "\nNone found.")
    else
      match Items(v)
      case None => None
      case Some(xs) => Some("### " + heading + "\n" + Strings.Join(Bullets(xs), "\n"))
  }

  /** The text handed to the analysis: whitespace runs collapsed, ends
      stripped, at most the first 38500 characters kept. */
  function Prepared(scraped: string): string {
    Take(Strings.Clean(scraped), MaxInputChars)
  }

  predicate IsScrapeMessage(s: string) {
    ErrorTag + ":" <= s || NoticeTag + ":" <= s
  }

  /** The message after the `ERROR:` or `NOTICE:` tag, stripped. */
  function ScrapeMessage(s: string): string
    requires IsScrapeMessage(s)
  {
    assert s[if ErrorTag + ":" <= s then 5 else 6] == ':';
    Strings.Strip(Strings.Python, Strings.AfterFirst(s, ':'))
  }

  /** The pipeline behind the form; the application passes its table
      `Categories`. */
  function Pipeline(table: map<string, seq<string>>, category: Option<string>, product: Option<string>, client: ClientBuild,
                    search: (string, string) -> seq<Submission>,
                    call: string -> GroqReply, parse: string -> ParseOutcome): Shown
  {
    if category.None? || category.value == "" then
      Shown("Please select a product category first.", "### Pros\n-", "### Cons\n-")
    else if product.None? || Strings.IsBlank(Strings.Python, product.value) then
      Shown("Please enter a product name.", "### Pros\n-", "### Cons\n-")
    else
      Respond(ScrapeText(table, Strings.Strip(Strings.Python, product.value), category.value, client, search, 10), call, parse)
  }

  /** What the form shows once the scrape has returned: a tagged message
      as it is, anything else through the analysis. */
  function Respond(scraped: string, call: string -> GroqReply, parse: string -> ParseOutcome): Shown {
    if IsScrapeMessage(scraped) then Shown(ScrapeMessage(scraped), "### Pros\nN/A", "### Cons\nN/A")
    else Present(AnalyzeText(Prepared(scraped), call, parse))
  }

  /** An analysis that raises crashes the pipeline: the form shows no
      outputs of its own. */
  lemma RaisedAnalysisCrashes(scraped: string, call: string -> GroqReply, parse: string -> ParseOutcome,
                              m: string)
    requires !IsScrapeMessage(scraped)
    requires call(UserPrompt(Prepared(scraped))) == ApiError(m, None) && !Strings.Contains(m, "response_format")
    ensures Respond(scraped, call, parse) == Crashed
  {
  }

  /** The outputs for an analysis result. */
  function Present(a: Analysis): Shown {
    match a
    case AnalysisRaised => Crashed
    case Analysis(c, pros, cons) =>
      if !c.JStr? then Crashed
      else if IsErrorConclusion(c.s) then Shown(c.s, "### Pros\nAnalysis Error", "### Cons\nAnalysis Error")
      else
        match (Section("Pros", pros), Section("Cons", cons))
        case (Some(p), Some(q)) => Shown(c.s, p, q)
        case _ => Crashed
  }

  /** The form is validated before anything else: without a category, or
      with a blank product name, the outputs are fixed and do not depend on
      Reddit or the model. */
  lemma ValidationFirst(table: map<string, seq<string>>, category: Option<string>, product: Option<string>,
                        client1: ClientBuild, search1: (string, string) -> seq<Submission>,
                        call1: string -> GroqReply, parse1: string -> ParseOutcome,
                        client2: ClientBuild, search2: (string, string) -> seq<Submission>,
                        call2: string -> GroqReply, parse2: string -> ParseOutcome)
    requires category.None? || category.value == "" || product.None? || Strings.IsBlank(Strings.Python, product.value)
    ensures Pipeline(table, category, product, client1, search1, call1, parse1)
      == Pipeline(table, category, product, client2, search2, call2, parse2)
    ensures category.None? || category.value == "" ==>
      Pipeline(table, category, product, client1, search1, call1, parse1)
        == Shown("Please select a product category first.", "### Pros\n-", "### Cons\n-")
    ensures category.Some? && category.value != "" ==>
      Pipeline(table, category, product, client1, search1, call1, parse1)
        == Shown("Please enter a product name.", "### Pros\n-", "### Cons\n-")
  {
  }

  /** A tagged message is shown as the text after its tag. */
  lemma ScrapeMessageText(tag: string, message: string)
    requires tag == ErrorTag || tag == NoticeTag
    requires message == [] || (!Strings.IsSpace(Strings.Python, message[0])
                               && !Strings.IsSpace(Strings.Python, message[|message| - 1]))
    ensures IsScrapeMessage(Tagged(tag, message))
    ensures ScrapeMessage(Tagged(tag, message)) == message
  {
    var rest := " " + message;
    assert Tagged(tag, message) == tag + [':'] + rest;
    assert ':' !in tag;
    Strings.AfterFirstPrefix(tag, ':', rest);
    TagStripped(message);
  }

  lemma TagStripped(message: string)
    requires message == [] || (!Strings.IsSpace(Strings.Python, message[0])
                               && !Strings.IsSpace(Strings.Python, message[|message| - 1]))
    ensures Strings.Strip(Strings.Python, " " + message) == message
  {
    var rest := " " + message;
    assert rest[1..] == message;
    assert Strings.IsSpace(Strings.Python, rest[0]);
    assert Strings.StripStart(Strings.Python, rest) == Strings.StripStart(Strings.Python, message);
    assert Strings.StripStart(Strings.Python, message) == message;
    assert Strings.StripEnd(Strings.Python, message) == message;
  }

  /** A tagged scrape message reaches the conclusion without its tag, and
      the pros and cons read N/A; the analysis is not consulted. */
  lemma ScrapeMessageShown(table: map<string, seq<string>>, category: string, product: string, client: ClientBuild,
                           search: (string, string) -> seq<Submission>,
                           call: string -> GroqReply, parse: string -> ParseOutcome, tag: string, message: string)
    requires category != "" && !Strings.IsBlank(Strings.Python, product)
    requires tag == ErrorTag || tag == NoticeTag
    requires message == [] || (!Strings.IsSpace(Strings.Python, message[0])
                               && !Strings.IsSpace(Strings.Python, message[|message| - 1]))
    requires ScrapeText(table, Strings.Strip(Strings.Python, product), category, client, search, 10)
      == Tagged(tag, message)
    ensures Pipeline(table, Some(category), Some(product), client, search, call, parse)
      == Shown(message, "### Pros\nN/A", "### Cons\nN/A")
  {
    RespondTagged(tag, message, call, parse);
  }

  lemma RespondTagged(tag: string, message: string, call: string -> GroqReply, parse: string -> ParseOutcome)
    requires tag == ErrorTag || tag == NoticeTag
    requires message == [] || (!Strings.IsSpace(Strings.Python, message[0])
                               && !Strings.IsSpace(Strings.Python, message[|message| - 1]))
    ensures Respond(Tagged(tag, message), call, parse) == Shown(message, "### Pros\nN/A", "### Cons\nN/A")
  {
    ScrapeMessageText(tag, message);
  }

  /** Every category the dropdown offers (the keys of `Categories`) lists
      subreddits, so only a name outside the table fails the check. */
  lemma DropdownCategoriesKnown(category: string)
    ensures KnownIn(Categories, category) <==> category in Categories
  {
  }

  /** With the application's table, a category the dropdown does not offer
      is shown as "Invalid category selected.". */
  lemma UnofferedCategoryShown(category: string, product: string, client: ClientBuild,
                               search: (string, string) -> seq<Submission>,
                               call: string -> GroqReply, parse: string -> ParseOutcome)
    requires category != "" && !Strings.IsBlank(Strings.Python, product) && category !in Categories
    ensures Pipeline(Categories, Some(category), Some(product), client, search, call, parse)
      == Shown("Invalid category selected.", "### Pros\nN/A", "### Cons\nN/A")
  {
    InvalidCategoryShown(Categories, category, product, client, search, call, parse);
  }

  /** An unknown category is shown as "Invalid category selected.". */
  lemma InvalidCategoryShown(table: map<string, seq<string>>, category: string, product: string, client: ClientBuild,
                             search: (string, string) -> seq<Submission>,
                             call: string -> GroqReply, parse: string -> ParseOutcome)
    requires category != "" && !Strings.IsBlank(Strings.Python, product) && !KnownIn(table, category)
    ensures Pipeline(table, Some(category), Some(product), client, search, call, parse)
      == Shown("Invalid category selected.", "### Pros\nN/A", "### Cons\nN/A")
  {
    ScrapeMessageShown(table, category, product, client, search, call, parse, ErrorTag, "Invalid category selected.");
  }

  /** A client failing with a response error is shown as the access failure. */
  lemma AccessFailureShown(table: map<string, seq<string>>, category: string, product: string,
                           search: (string, string) -> seq<Submission>,
                           call: string -> GroqReply, parse: string -> ParseOutcome)
    requires category != "" && !Strings.IsBlank(Strings.Python, product) && KnownIn(table, category)
    ensures Pipeline(table, Some(category), Some(product), ResponseFailed, search, call, parse)
      == Shown("Reddit API access failed. " + "Check credentials or network.", "### Pros\nN/A", "### Cons\nN/A")
  {
    var message := "Reddit API access failed. " + "Check credentials or network.";
    assert message[0] == 'R' && message[|message| - 1] == '.';
    ScrapeMessageShown(table, category, product, ResponseFailed, search, call, parse, ErrorTag, message);
  }

  /** A known category where no searched subreddit listed anything is shown
      as the notice's text. */
  lemma NothingFoundShown(table: map<string, seq<string>>, category: string, product: string,
                          search: (string, string) -> seq<Submission>,
                          call: string -> GroqReply, parse: string -> ParseOutcome)
    requires category != "" && !Strings.IsBlank(Strings.Python, product) && KnownIn(table, category)
    requires !AnyListed(table[category], Strings.Strip(Strings.Python, product), search)
    ensures Pipeline(table, Some(category), Some(product), Built, search, call, parse)
      == Shown("No relevant discussions found in the " + "selected category's subreddits.", "### Pros\nN/A", "### Cons\nN/A")
  {
    var name := Strings.Strip(Strings.Python, product);
    WalkEmpty(table[category], name, search, [], 10);
    assert Walk(table[category], name, search, [], 10) == [];
    assert ScrapeText(table, name, category, Built, search, 10) == NothingFound;
    var message := "No relevant discussions found in the " + "selected category's subreddits.";
    assert message[0] == 'N' && message[|message| - 1] == '.';
    ScrapeMessageShown(table, category, product, Built, search, call, parse, NoticeTag, message);
  }

  /** The analysed text is a prefix of the cleaned text, at most 38500
      characters long, with no whitespace but single plain spaces. */
  lemma PreparedShape(scraped: string)
    ensures Prepared(scraped) <= Strings.Clean(scraped)
    ensures |Prepared(scraped)| == (if |Strings.Clean(scraped)| <= MaxInputChars then |Strings.Clean(scraped)| else MaxInputChars)
    ensures |Strings.Clean(scraped)| <= MaxInputChars ==> Prepared(scraped) == Strings.Clean(scraped)
    ensures Strings.OnlyPlainSpaces(Prepared(scraped)) && Strings.NoDoubleSpace(Prepared(scraped))
  {
    var c := Strings.Clean(scraped);
    Strings.CleanNormalises(scraped);
    var p := Prepared(scraped);
    assert p == c[0..|p|];
    Strings.SliceKeepsShape(c, 0, |p|);
  }

  /** Every failure of the analysis is shown as the error triple: the
      message as conclusion, and "Analysis Error" for pros and cons. */
  lemma AnalysisFailureShown(text: string, call: string -> GroqReply, parse: string -> ParseOutcome)
    requires AnalyzeText(text, call, parse).Analysis?
    requires var a := AnalyzeText(text, call, parse); a.conclusion.JStr? && IsErrorConclusion(a.conclusion.s)
    ensures Present(AnalyzeText(text, call, parse))
      == Shown(AnalyzeText(text, call, parse).conclusion.s, "### Pros\nAnalysis Error", "### Cons\nAnalysis Error")
  {
  }

  /** A successful analysis with list-valued pros and cons: the conclusion
      as it is, and each section one `- item` line per entry, or
      "None found." for an empty list. */
  lemma SuccessShown(c: string, pros: seq<Json>, cons: seq<Json>)
    requires !IsErrorConclusion(c)
    ensures var s := Present(Analysis(JStr(c), JArr(pros), JArr(cons)));
      && s.Shown? && s.conclusion == c
      && (pros == [] ==> s.pros == "### Pros\nNone found.")
      && (pros != [] ==>
            s.pros == "### Pros\n" + Strings.Join(Bullets(seq(|pros|, i requires 0 <= i < |pros| => PyStr(pros[i]))), "\n"))
      && (cons == [] ==> s.cons == "### Cons\nNone found.")
      && (cons != [] ==>
            s.cons == "### Cons\n" + Strings.Join(Bullets(seq(|cons|, i requires 0 <= i < |cons| => PyStr(cons[i]))), "\n"))
  {
    ListSection("Pros", pros);
    ListSection("Cons", cons);
    PresentSuccess(c, JArr(pros), JArr(cons));
    assert "### " + "Pros" + "\n" == "### Pros\n";
    assert "### " + "Cons" + "\n" == "### Cons\n";
  }

  lemma PresentSuccess(c: string, pros: Json, cons: Json)
    requires !IsErrorConclusion(c)
    requires Section("Pros", pros).Some? && Section("Cons", cons).Some?
    ensures Present(Analysis(JStr(c), pros, cons))
      == Shown(c, Section("Pros", pros).value, Section("Cons", cons).value)
  {
  }

  lemma ListSection(heading: string, items: seq<Json>)
    ensures items == [] ==> Section(heading, JArr(items)) == Some("### " + heading + "\nNone found.")
    ensures items != [] ==>
      Section(heading, JArr(items))
        == Some("### " + heading + "\n" + Strings.Join(Bullets(seq(|items|, i requires 0 <= i < |items| => PyStr(items[i]))), "\n"))
  {
  }

  /** Each bullet line shows one item. */
  lemma BulletLines(xs: seq<string>)
    requires forall i | 0 <= i < |xs| :: '\n' !in xs[i]
    requires |xs| >= 1
    ensures Strings.Split(Strings.Join(Bullets(xs), "\n"), '\n') == Bullets(xs)
  {
    forall i | 0 <= i < |xs|
      ensures '\n' !in Bullets(xs)[i]
    {
      assert Bullets(xs)[i] == "- " + xs[i];
    }
    Strings.SplitJoin(Bullets(xs), '\n');
  }
}
