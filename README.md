# HonestReviews in Dafny

HonestReviews collects Reddit discussions about a product and asks a language
model for an honest verdict: a conclusion, pros and cons (and, in the web
version, a sentiment score and a word cloud). This project models its core in
Dafny and proves what each part promises.

- **The Next.js endpoint** (`AnalyzeRoute`, `route.dfy`):
  - collects discussions with four searches, accepting at most six posts (each with at most fifteen comments);
  - asks Gemini for an analysis;
  - maps every outcome to an HTTP status and body.
- **The Python services:**
  - the query-based collector (`DynamicScraper`) and the Gemini analyzer (`GeminiAnalyzer`);
  - the category-based collector (`CategoryScraper`) and the Groq analyzer (`GroqAnalyzer`).
- **The Gradio application** (`GradioApp`):
  - a category scraper that answers with one text or an `ERROR:`/`NOTICE:` message;
  - a Groq analysis with non-greedy JSON extraction and defaulted keys;
  - the pipeline that validates the form, cleans and truncates the text, and renders Markdown pros and cons.
- **The search page** (`SearchPage`): the recent-search history and what one search does to the page state.
- **Shared modules:**
  - `Reddit`: posts, citations, comment filters and the de-duplicating selection;
  - `LlmText`: both regular expressions that pull a JSON object out of model output, and the parse-then-extract fallback;
  - `Strings`: whitespace per runtime, strip, collapsing, join and split;
  - `Json`: values, key lookup, Python truthiness and `str`;
  - `Seqs` and `Wrappers`.

**Loops.** Every loop the source writes with mutable lists, sets and counters is a `method` with a `while` loop. Its postcondition equals a recursive specification function: `ScanListing`/`CollectDiscussions`, `ScanSubmissions`/`ScrapeReddit`, `ScanSubreddit`/`ScrapeReddit`, and `KeepComments`. The meaning of those functions is then proved against independent references:

- `Select`: the first-come, de-duplicated, engagement-filtered stream;
- `Listed`: every submission of the visited subreddits;
- `Others`: the non-matching history entries.

**Parameters.** Everything outside the program is a parameter:

- the Reddit searches, the comment fetches and the token exchange;
- the model calls and the JSON parsers;
- JavaScript's `toLowerCase`, JSON encoding of the history, the environment variables and the prompt texts.

A search that raises part-way is a search that yields the submissions produced before the raise.

**Behaviour of the code worth knowing:**

- A history entry holds only the product. `SearchHistoryItem` declares a `category` too (src/types/index.ts:24-27), but the page stores `{ product }` alone (src/app/page.tsx:57).
- The fallback extraction of the Next.js route and of both Python analyzers is greedy: it runs from the first `{` to the last `}` (src/app/api/analyze/route.ts:236-238, python_api/analyzer.py:75, api/analyzer.py:52).
- A configuration error has two forms. With the Gemini key unset, the endpoint answers 500 with "GEMINI_API_KEY not configured" (src/app/api/analyze/route.ts:165-169). Missing Reddit credentials, however, throw (src/app/api/analyze/route.ts:27-28); the handler's catch answers the generic 500 "Something went wrong while consulting Reddit." (src/app/api/analyze/route.ts:287-293).
- When the greedy candidate does not parse either, `JSON.parse` throws. The analyzer's catch turns it into "AI analysis failed", a 500 (src/app/api/analyze/route.ts:238, 242-244).
- In the Python query collector, a comment load that raises abandons the rest of that search, not just that post's comments: the `try` wraps the whole search (python_api/scraper.py:44-98).
- The category collector of `api/scraper.py` does not truncate post bodies or comments (api/scraper.py:79-81, 99-100).
- The history stays free of case-insensitive duplicates only if it started that way. A stored history with duplicates keeps them among the older entries (src/app/page.tsx:58; `UpdateKeepsWellKept` needs distinct input).

## Model

| member | source | states |
|---|---|---|
| Seqs.Take | src/app/api/analyze/route.ts:194 | `slice(0, n)` / `[:n]`: a prefix of the input, of length `min(n, len)` |
| Strings.Strip | app.py:252-258 | Python `strip()`: no whitespace at either end, empty exactly when the input is blank, unchanged when already stripped |
| Strings.StripKeepsVisible | app.py:252-258 | stripping keeps every non-whitespace character, in order |
| Strings.CleanNormalises | app.py:269 | `re.sub(r'\s+', ' ', s).strip()` leaves only single plain spaces, none at the ends, and exactly the visible characters of the input in order; where each space comes from is stated by `CollapseRun` |
| Strings.CollapseRun | app.py:269 | `re.sub(r'\s+', ' ', …)`: a whitespace run between two visible characters (or a text end) becomes exactly one space, and the text on either side collapses on its own |
| Strings.CleanRun | app.py:269 | cleaning two texts joined by a whitespace run (such as the blank line of app.py:127) gives the two cleaned texts joined by one space |
| Strings.CleanIdempotent | app.py:269 | cleaning a cleaned text changes nothing |
| Strings.AfterFirstPrefix | app.py:262 | `split(":", 1)[1]` of `tag + ":" + rest` is `rest` when the tag has no colon |
| Strings.SplitJoin | app.py:297 | joining lines free of `\n` with `\n` and splitting again gives the lines back |
| Json.Get | app.py:188-190 | `dict.get`: absent exactly when no entry has the key, otherwise the value of an entry with that key |
| Json.ErrorObject | python_api/analyzer.py:80 | the `{"error": message}` object has the `error` key with that message |
| Json.Keys | app.py:297 | iterating a dict yields every key present in it, each exactly once, and nothing else |
| LlmText.GeminiPrompt | python_api/analyzer.py:53-55 | the prompt is the instruction, a blank line, `Reviews:` and the first 30000 characters of the text (exactly 30000 when longer, the whole text otherwise) (the Next.js route builds the same prompt) |
| LlmText.GreedySpan | python_api/analyzer.py:75 | `(\{.*\})` with DOTALL: the span runs from the first `{` to the last `}`, and there is none exactly when no `{` precedes a `}` |
| LlmText.GreedyCandidate | src/app/api/analyze/route.ts:236-238 | `\{[\s\S]*\}`: the match starts with `{` and ends with `}`, and is absent exactly when no `{` precedes a `}` |
| LlmText.NonGreedyCandidate | app.py:177-182 | the captured group (fenced, else bare) starts with `{` and ends with `}` |
| LlmText.NonGreedyMatchesIffGreedy | app.py:177-179 | the Gradio expression fails on exactly the texts where the greedy one fails: those with no `{` before a `}` |
| LlmText.UnfencedCandidate | app.py:177-182 | without a "```json" fence the candidate runs from the first `{` to the first `}` after it (a nested object is cut short) |
| LlmText.FencedObjectWins | app.py:176-182 | a reply opening with a fenced object (which may contain `}`) yields exactly that object, whatever follows the fence |
| LlmText.FencedObjectAfterPreamble | app.py:176-182 | the same after a preamble with no `{` and no backtick (such as "Here is the JSON:"): `re.search` matches nothing before the fence |
| LlmText.LoadsWithFallbackSpec | python_api/analyzer.py:70-80 | a text that parses is the value as it is; otherwise there is no match exactly when no `{` precedes a `}`, and the second parse sees the first `{` through the last `}` |
| Reddit.RemoveRSlashKeeps | api/scraper.py:70 | `replace("r/", "")` leaves a name without a slash unchanged |
| Reddit.RemoveRSlashPrefix | app.py:92 | a leading `r/` is dropped |
| Reddit.KeptMembers | python_api/scraper.py:92 | a comment body is kept exactly when it occurs and passes the filter (present, not `[removed]`/`[deleted]`, and longer than 20 where required) |
| Reddit.Clip | src/app/api/analyze/route.ts:136 | a kept comment is cut to its first 1500 characters: exactly 1500 when longer, whole otherwise |
| Reddit.CommentBlocks | src/app/api/analyze/route.ts:126-139 | at most `cap` comment lines: as many as the filter keeps, up to the cap; line i shows the i-th kept body, in order, and each shown body passes the filter |
| Reddit.KeepComments | python_api/scraper.py:88-94 | the comment loop with its counter and `break` yields exactly the first `cap` kept bodies, each clipped |
| Reddit.PostHeader | python_api/scraper.py:68-72 | the post block is the `### Post from r/` line and the `Title:` line, followed, exactly when the body is not empty, by `Body: ` with the body's first 2000 characters (all of a shorter body) and a newline (route.ts:96-101 builds the same block) |
| Reddit.SelectSound | src/app/api/analyze/route.ts:91-94 | every selected post comes from the stream, has at least three comments and an unseen url, and no url is selected twice |
| Reddit.SelectComplete | src/app/api/analyze/route.ts:91-94 | every post with at least three comments and an unseen url has its url among the selected ones |
| Reddit.SelectAppend | src/app/api/analyze/route.ts:68-94 | selecting over two result lists in a row equals selecting over the second with the first's selected urls counted as seen |
| Reddit.Queries | src/app/api/analyze/route.ts:61-66 | four queries, the last the bare name, each containing the name (python_api/scraper.py:31-36 builds the same four) |
| AnalyzeRoute.Cite | src/app/api/analyze/route.ts:105-110 | title, subreddit and score copied; the url is `https://reddit.com` + permalink |
| AnalyzeRoute.PostBlocks | src/app/api/analyze/route.ts:96-139 | an accepted post contributes its header first and at most 16 blocks |
| AnalyzeRoute.ScanListing | src/app/api/analyze/route.ts:86-144 | the inner loop with `continue`/`break` computes exactly the specified walk |
| AnalyzeRoute.CollectDiscussions | src/app/api/analyze/route.ts:68-148 | the outer loop computes exactly the specified collection |
| AnalyzeRoute.ScanSelects | src/app/api/analyze/route.ts:86-110 | walking one listing accepts what the selection picks, up to six overall |
| AnalyzeRoute.RunSelects | src/app/api/analyze/route.ts:68-110 | walking the queries accepts the first six selected posts of all listings |
| AnalyzeRoute.CollectSelects | src/app/api/analyze/route.ts:68-148 | the collection is exactly the first six posts, in query-then-result order, with an unseen url and at least three comments; one header block (with its comments) and one source each, in that order |
| AnalyzeRoute.ScrapeReddit | src/app/api/analyze/route.ts:51-160 | the scrape as written equals its specification |
| AnalyzeRoute.ScrapeThrows | src/app/api/analyze/route.ts:24-54 | missing credentials or a failed token exchange throw before any search |
| AnalyzeRoute.Accepted | src/app/api/analyze/route.ts:68-87 | at most six posts are accepted |
| AnalyzeRoute.AcceptedSound | src/app/api/analyze/route.ts:91-94 | accepted posts have at least three comments and distinct urls |
| AnalyzeRoute.ScrapeOutcomes | src/app/api/analyze/route.ts:150-159 | not-found exactly when nothing is accepted, with a message naming the product; otherwise the blocks joined by blank lines and one to six sources |
| AnalyzeRoute.GeminiKeyFirst | src/app/api/analyze/route.ts:165-169 | without a key the answer is the configuration error, whatever the service would say |
| AnalyzeRoute.GeminiSeesPrefix | src/app/api/analyze/route.ts:194-195 | characters beyond the first 30000 never change the analysis |
| AnalyzeRoute.GeminiReplyHandling | src/app/api/analyze/route.ts:232-241 | a parsing reply is returned as it is; else "Failed to parse AI response" when no `{` precedes a `}`, else the parse of the first-`{`-to-last-`}` span (a failure there counts as "AI analysis failed") |
| AnalyzeRoute.HandleStatuses | src/app/api/analyze/route.ts:252-293 | only 200, 400 or 500; a missing, non-string or blank name is a 400 "Product name is required" |
| AnalyzeRoute.HandleSuccess | src/app/api/analyze/route.ts:264-286 | a 200 needs a valid name, credentials and a token, and carries the raw name, an analysis with no `error` key and one to six sources |
| AnalyzeRoute.BlankNameShortCircuits | src/app/api/analyze/route.ts:257-262 | a blank name gets the same answer whatever Reddit or Gemini would do |
| AnalyzeRoute.ScrapeThrowIsGeneric500 | src/app/api/analyze/route.ts:287-293 | a valid name without Reddit credentials or with a failed token exchange (the throws of lines 27-28 and 43-44) ends in the generic 500 |
| AnalyzeRoute.AnswerOutcome | src/app/api/analyze/route.ts:264-286 | once Reddit can be searched, nothing accepted is the 400 naming the product, and otherwise the answer is decided by the Gemini analysis of the accepted posts' blocks joined by blank lines, with their sources |
| AnalyzeRoute.HandleNotFound | src/app/api/analyze/route.ts:264-268 | a valid name for which no post is accepted gets a 400 whose detail is the not-found message naming the product |
| AnalyzeRoute.HandleAnalysisError | src/app/api/analyze/route.ts:270-278 | accepted posts and an analysis object with an `error` key give a 500 whose detail is that value |
| AnalyzeRoute.HandleSucceeds | src/app/api/analyze/route.ts:264-285 | accepted posts and an analysis without an `error` key give the 200 with the raw name, that analysis and the accepted posts' sources (the converse of HandleSuccess) |
| AnalyzeRoute.HandleAnalysisNotObject | src/app/api/analyze/route.ts:273-293 | an analysis that is neither object nor array makes the `in` test throw, which ends in the generic 500 |
| DynamicScraper.Cite | python_api/scraper.py:77-82 | the source copies the submission's title, url, subreddit and score |
| DynamicScraper.ScanSubmissions | python_api/scraper.py:53-98 | the submission loop as written computes exactly the specified walk, abandoning the search when a comment load raises |
| DynamicScraper.ScrapeReddit | python_api/scraper.py:18-108 | the scrape as written equals its specification |
| DynamicScraper.ScanGood | python_api/scraper.py:53-94 | a walk keeps the invariant (at most `maxPosts` sources, seen urls = cited urls, none twice, blocks exactly when sources) and only extends the sources |
| DynamicScraper.RunGood | python_api/scraper.py:40-98 | the query loop keeps the same invariant |
| DynamicScraper.ScrapeOutcomes | python_api/scraper.py:100-108 | not-found exactly when no submission was accepted, naming the product; otherwise at most `maxPosts` sources with distinct urls |
| DynamicScraper.RaiseAbandonsSearch | python_api/scraper.py:84-98 | after a raise in an accepted submission's comments, the rest of that search makes no difference, and the submission stays cited |
| DynamicScraper.CollectSelects | python_api/scraper.py:40-94 | when no comment load raises, the sources cite the first `maxPosts` selected submissions in query-then-result order |
| GeminiAnalyzer.KeyCheckedFirst | python_api/analyzer.py:16-18 | a missing or empty key gives the fixed error before any request |
| GeminiAnalyzer.SeesPrefix | python_api/analyzer.py:53-55 | characters beyond the first 30000 never change the analysis |
| GeminiAnalyzer.Outcomes | python_api/analyzer.py:67-84 | an exception or an absent text gives `AI Analysis failed: ` + its message; a parsing text is returned as it is; no `{` before a `}` gives the parse error; otherwise there are a first `{` at `i` and a last `}` at `j - 1`, and the parse of `t[i..j]` decides |
| GroqAnalyzer.UserMessage | api/analyzer.py:31-37 | the user message is `Reviews:` and the first 25000 characters of the text (exactly 25000 when longer, the whole text otherwise) |
| GroqAnalyzer.SeesPrefix | api/analyzer.py:31 | characters beyond the first 25000 never change the analysis |
| GroqAnalyzer.Outcomes | api/analyzer.py:44-60 | an exception gives `{"error": message}`; a parsing text is returned as it is; no `{` before a `}` gives the parse error; otherwise there are a first `{` at `i` and a last `}` at `j - 1`, and the parse of `t[i..j]` decides |
| CategoryScraper.Heading | api/scraper.py:79-81 | the block is the title line when the body is empty, and the title line followed by the whole body as a `Body:` line otherwise |
| CategoryScraper.ScanSub | api/scraper.py:75-101 | a subreddit walk only extends blocks and sources, by at most one source per submission, and never more sources than blocks |
| CategoryScraper.ScanSubreddit | api/scraper.py:75-101 | the loop as written computes the walk, with `posts_found` equal to the number of sources |
| CategoryScraper.ScrapeReddit | api/scraper.py:49-113 | the scrape as written equals its specification |
| CategoryScraper.CategoryCheckedFirst | api/scraper.py:53-57 | an unknown category is refused before the client is built or any search runs |
| CategoryScraper.RunShape | api/scraper.py:66-105 | blocks exist exactly when sources do, and every source names a searched subreddit |
| CategoryScraper.ScanSubBlocks | api/scraper.py:75-101 | without a raise, a subreddit walk appends, per submission in order, its heading and then its kept comments (at most `max_comments`, each as a `Comment:` line) |
| CategoryScraper.ScanSubRaise | api/scraper.py:75-101 | when the comment load of submission `k` raises, the walk has added the blocks of the submissions before it and that submission's heading, and cites submissions 0 to `k` |
| CategoryScraper.ScanSubNames | api/scraper.py:86-91 | every source a subreddit walk adds names that subreddit |
| CategoryScraper.ScrapeOutcomes | api/scraper.py:107-113 | "No results found" exactly when nothing was gathered; otherwise the gathered sources, all from the category's subreddits |
| CategoryScraper.RunBound | api/scraper.py:66-73 | when every search yields at most `max_posts`, fewer than `3 * max_posts` submissions are gathered |
| CategoryScraper.ScanSubAll | api/scraper.py:75-91 | without a raise, a subreddit walk cites every submission in order |
| CategoryScraper.RunVisitsPrefix | api/scraper.py:66-105 | without a raise, the sources are every submission of the first `m` subreddits, and the walk stops early only once `2 * max_posts` are gathered |
| GradioApp.TitlePiece | app.py:101 | a title piece starts with `Post Title (r/` |
| GradioApp.PostPieces | app.py:101-103 | a submission gives its title piece, then a body piece exactly when the body is not empty |
| GradioApp.ScanSub | app.py:99-114 | a subreddit walk only extends the pieces, and adds some when a submission is listed |
| GradioApp.ScanSubPieces | app.py:99-114 | without a raise, a subreddit walk appends, per submission in order, its title piece, its body piece when the body is not empty, and its kept comments |
| GradioApp.ScanSubRaise | app.py:99-114 | when the comment load of submission `k` raises, the walk has added the pieces of the submissions before it and the title and body pieces of submission `k` |
| GradioApp.ScanSubreddit | app.py:95-122 | the submission loop as written computes exactly the specified walk |
| GradioApp.ScrapeReddit | app.py:57-134 | the scrape as written equals its specification |
| GradioApp.WalkEmpty | app.py:90-126 | the walk adds nothing exactly when no searched subreddit listed a submission |
| GradioApp.ScrapeOutcomes | app.py:73-134 | an unknown category gives the invalid-category error; with a client, the `NOTICE:` exactly when nothing was listed, and otherwise a text opening with a title line |
| GradioApp.FirstPieceIsTitle | app.py:99-101 | the first piece collected is a title piece |
| GradioApp.AnalysisOutcomes | app.py:172-232 | the analysis raises exactly on an API error without "response_format" and without a status code (`e.status_code` fails, app.py:221-222); a decoded object gives exactly `Fields` of its entries (app.py:183-191); no JSON in the reply gives `NoJsonFound` and an undecodable one `InvalidJson(m)`, both opening with "Analysis failed" (app.py:194-207); every other analysis is an error conclusion with empty pros and cons |
| GradioApp.RaisedAnalysisCrashes | app.py:221-222 | that raise escapes the pipeline, which then shows no outputs of its own |
| GradioApp.FieldsDefaults | app.py:187-191 | missing keys get "No conclusion found." and empty lists; present keys keep their value |
| GradioApp.ResponseFormatFirst | app.py:211-225 | an API error mentioning `response_format` reports JSON mode before any status code |
| GradioApp.ValidationFirst | app.py:247-254 | without a category, or with a blank product, the fixed messages are shown whatever Reddit or the model would do |
| GradioApp.ScrapeMessageText | app.py:261-262 | a tagged message is recognised, and the text after its tag comes back stripped |
| GradioApp.ScrapeMessageShown | app.py:261-265 | a tagged scrape result is shown without its tag, with N/A pros and cons |
| GradioApp.InvalidCategoryShown | app.py:73-76 | an unknown category shows "Invalid category selected." |
| GradioApp.DropdownCategoriesKnown | app.py:313-316 | every category the dropdown offers (a key of the table) has subreddits, so only a category outside the table is refused |
| GradioApp.UnofferedCategoryShown | app.py:73-76 | with the application's own table, a category it does not list shows "Invalid category selected." |
| GradioApp.AccessFailureShown | app.py:129-131 | a client response failure shows the access-failed message |
| GradioApp.NothingFoundShown | app.py:125-126 | a category where nothing was listed shows the notice's text |
| GradioApp.PreparedShape | app.py:268-276 | the analysed text is the first 38500 characters of the cleaned text (exactly 38500 when longer, all of it otherwise), with only single plain spaces |
| GradioApp.AnalysisFailureShown | app.py:283-286 | an error conclusion is shown with "Analysis Error" pros and cons |
| GradioApp.SuccessShown | app.py:289-306 | a successful analysis shows its conclusion, and each list as `- item` lines or "None found." |
| GradioApp.BulletLines | app.py:297 | the bullet list splits back into one line per item |
| SearchPage.Others | src/app/page.tsx:58 | the filter keeps exactly the entries naming another product (case-insensitively) |
| SearchPage.UpdateHistoryShape | src/app/page.tsx:55-59 | the new history starts with the product and has at most five entries |
| SearchPage.ProductOnlyAtFront | src/app/page.tsx:57-58 | the product appears only at the front: a re-search moves the entry instead of duplicating it |
| SearchPage.TailFromPrevious | src/app/page.tsx:58 | the older entries are a subsequence of the previous history, none naming the product |
| SearchPage.TailKeepsWhatFits | src/app/page.tsx:58 | the older entries are a prefix of the other-product entries: all of them when at most four, the first four otherwise (a full history) |
| SearchPage.OthersAppend | src/app/page.tsx:58 | the filter distributes over concatenation, so it is decided entry by entry |
| SearchPage.OthersSingle | src/app/page.tsx:58 | one entry is dropped exactly when it names the product, case-insensitively |
| SearchPage.OldestDropped | src/app/page.tsx:58 | a new product over a full history keeps the first four older entries and drops the rest |
| SearchPage.UpdateKeepsWellKept | src/app/page.tsx:55-61 | from a duplicate-free history, the new one is duplicate-free and has at most five entries |
| SearchPage.HandleSearch | src/app/page.tsx:32-69 | after a search, loading is off (or nothing changed at all) |
| SearchPage.BlankSearchIgnored | src/app/page.tsx:33 | a blank product changes nothing |
| SearchPage.FailureKeepsHistory | src/app/page.tsx:46-66 | a failure shows a non-empty error and no result, and leaves history and storage as they were |
| SearchPage.FailureMessages | src/app/page.tsx:46-65 | the error is the endpoint's non-empty `detail`, the thrown message, or the matching fixed text |
| SearchPage.SuccessUpdatesHistory | src/app/page.tsx:51-61 | a delivered result is shown; the new history is `UpdateHistory` of the previous one (so the lemmas about it apply), starts with the product, is what storage receives, and stays duplicate-free |
| SearchPage.Mount | src/app/page.tsx:19-30 | mounting reads a non-empty stored value that decodes as the history, and otherwise starts empty |
| SearchPage.ReloadRestoresHistory | src/app/page.tsx:20-24 | what a search stores is what the next mount reads back, given an encoding that round-trips |

## Left out

- Networking, OAuth and the SDKs are not modelled. The client-credentials token request (section 4.4 of RFC 6749), the Reddit, Gemini and Groq HTTP exchanges and the PRAW, google-genai and groq clients are replaced by parameters that give their outcomes.
- Parsing and encoding are not modelled. JSON parsing (`JSON.parse`, `json.loads`, `response.json()`) and JSON encoding of the history are parameters.
- Fractional JSON numbers are not modelled (`Json` has integers only). Nothing in the core computes with them.
- String encodings are not modelled. JavaScript's UTF-16 lengths and slices are taken per character, and `toLowerCase` is a parameter.
- The prompt texts are parameters or constants without behaviour. So are the subreddit tables: `GradioApp` takes its table as a parameter; the lemmas about the application's own table `Categories` are `DropdownCategoriesKnown` and `UnofferedCategoryShown`.
- The UI is not modelled: rendering, animation, gauges, the word cloud, the Gradio layout and the FastAPI wiring (`api/main.py`, `python_api/analyze.py`). Neither is logging.
- The search `limit` (6 per query on the web, `max_posts` in Python, 15 comments per fetch) is not modelled as such. It is part of what the search or fetch parameter returns; `CategoryScraper.RunBound` states its consequence as a hypothesis.
- The `GET` health probe of the endpoint returns a constant and is not modelled.
- Json.PyStr: a dict shown inside a pros or cons list lists duplicate keys once per entry, where Python shows each key once with its last value; strings inside containers are quoted without Python's escaping.
- AnalyzeRoute.AnalyzeWithGemini: a thrown request and a reply whose body is not JSON are one outcome (`CallThrew`), since both give "AI analysis failed".
- DynamicScraper.CollectSelects: states the sources only. The text blocks of the query collector are specified by `Scan` and not related to the selection by a separate lemma.
- SearchPage.HandleSearch: a `detail` that is not a string (shown through JavaScript's string conversion) is taken as absent. A stored history whose entries lack a `product` string (which would throw) is not modelled; the decoder yields well-formed entries or nothing.
