/** The Python collector that discovers discussions without a category:
    the same four searches across all of Reddit, at most `maxPosts`
    accepted submissions (6 by default) with up to `maxComments` comments
    each (15 by default). A submission carries its own comments, whose
    loading can raise; a search yields the submissions produced before it
    ended or raised. */
module DynamicScraper {
  import opened Wrappers
  import opened Seqs
  import opened Reddit
  import Strings

  /** The source entry: here the link is the submission's own `url`. */
  function Cite(p: Post): (r: Citation)
    ensures r.title == p.title && r.url == p.url && r.subreddit == p.subreddit && r.score == p.score
  {
    Citation(p.title, p.url, p.subreddit, p.score)
  }

  datatype Collected = Collected(blocks: seq<string>, sources: seq<Citation>, seen: set<string>)

  /** The walk over one search's submissions. An accepted submission first
      adds its header and source; if loading its comments then raises, the
      rest of this search is abandoned with what was added kept. */
  function Scan(subs: seq<Submission>, st: Collected, maxPosts: nat, maxComments: nat): Collected
    decreases |subs|
  {
    if subs == [] || |st.sources| >= maxPosts then st
    else
      var p := subs[0].post;
      if p.url in st.seen || p.numComments < 3 then Scan(subs[1..], st, maxPosts, maxComments)
      else
        var added := Collected(st.blocks + [PostHeader(p)], st.sources + [Cite(p)], st.seen + {p.url});
        match subs[0].comments
        case LoadRaised => added
        case Loaded(bodies) =>
          Scan(subs[1..], added.(blocks := added.blocks + CommentBlocks(bodies, LongerThan20, maxComments, Some(1500))),
               maxPosts, maxComments)
  }

  function Run(queries: seq<string>, search: string -> seq<Submission>, st: Collected,
               maxPosts: nat, maxComments: nat): Collected
    decreases |queries|
  {
    if queries == [] || |st.sources| >= maxPosts then st
    else Run(queries[1..], search, Scan(search(queries[0]), st, maxPosts, maxComments), maxPosts, maxComments)
  }

  function Collect(name: string, search: string -> seq<Submission>, maxPosts: nat, maxComments: nat): Collected {
    Run(Queries(name), search, Collected([], [], {}), maxPosts, maxComments)
  }

  /** What the collector returns; building the client can raise before any
      search. */
  datatype ScrapeResult =
    | Scraped(textBlob: string, sources: seq<Citation>)
    | NotFound(error: string)
    | ClientRaised(message: string)

  function NotFoundMessage(name: string): string {
    "No Reddit discussions found for '" + name + "'. Try a more specific name."
  }

  function Scrape(name: string, clientError: Option<string>, search: string -> seq<Submission>,
                  maxPosts: nat, maxComments: nat): ScrapeResult {
    if clientError.Some? then ClientRaised(clientError.value)
    else
      var st := Collect(name, search, maxPosts, maxComments);
      if st.blocks == [] then NotFound(NotFoundMessage(name))
      else Scraped(Strings.Join(st.blocks, "\n\n"), st.sources)
  }

  /** The loop over one search's submissions as written. */
  method ScanSubmissions(subs: seq<Submission>, blocks0: seq<string>, sources0: seq<Citation>,
                         seen0: set<string>, maxPosts: nat, maxComments: nat)
    returns (blocks: seq<string>, sources: seq<Citation>, seen: set<string>)
    ensures Collected(blocks, sources, seen)
      == Scan(subs, Collected(blocks0, sources0, seen0), maxPosts, maxComments)
  {
    blocks, sources, seen := blocks0, sources0, seen0;
    var i := 0;
    while i < |subs|
      invariant 0 <= i <= |subs|
      invariant Scan(subs[i..], Collected(blocks, sources, seen), maxPosts, maxComments)
        == Scan(subs, Collected(blocks0, sources0, seen0), maxPosts, maxComments)
    {
      if |sources| >= maxPosts {
        break;
      }
      var submission := subs[i];
      assert subs[i..][1..] == subs[i + 1..];
      if submission.post.url in seen {
        i := i + 1;
        continue;
      }
      if submission.post.numComments < 3 {
        i := i + 1;
        continue;
      }
      seen := seen + {submission.post.url};
      blocks := blocks + [PostHeader(submission.post)];
      sources := sources + [Cite(submission.post)];
      match submission.comments {
        case LoadRaised =>
          break;
        case Loaded(bodies) =>
          var lines := KeepComments(bodies, LongerThan20, maxComments, Some(1500));
          blocks := blocks + lines;
      }
      i := i + 1;
    }
  }

  method ScrapeReddit(name: string, clientError: Option<string>, search: string -> seq<Submission>,
                      maxPosts: nat, maxComments: nat)
    returns (r: ScrapeResult)
    ensures r == Scrape(name, clientError, search, maxPosts, maxComments)
  {
    if clientError.Some? {
      return ClientRaised(clientError.value);
    }
    var queries := Queries(name);
    var blocks: seq<string> := [];
    var sources: seq<Citation> := [];
    var seen: set<string> := {};
    var k := 0;
    while k < |queries|
      invariant 0 <= k <= |queries|
      invariant Run(queries[k..], search, Collected(blocks, sources, seen), maxPosts, maxComments)
        == Collect(name, search, maxPosts, maxComments)
    {
      if |sources| >= maxPosts {
        break;
      }
      assert queries[k..][1..] == queries[k + 1..];
      blocks, sources, seen := ScanSubmissions(search(queries[k]), blocks, sources, seen, maxPosts, maxComments);
      k := k + 1;
    }
    if |blocks| == 0 {
      r := NotFound(NotFoundMessage(name));
    } else {
      r := Scraped(Strings.Join(blocks, "\n\n"), sources);
    }
  }

  // ---------------------------------------------------------------------
  // What holds whatever raises
  // ---------------------------------------------------------------------

  function SourceUrls(sources: seq<Citation>): set<string> {
    set i | 0 <= i < |sources| :: sources[i].url
  }

  /** The collector's invariant: at most `maxPosts` sources, the seen urls
      are exactly the sources' urls and no url is cited twice, and there
      are blocks exactly when there are sources. */
  predicate Good(st: Collected, maxPosts: nat) {
    && |st.sources| <= maxPosts
    && st.seen == SourceUrls(st.sources)
    && (forall i, j | 0 <= i < j < |st.sources| :: st.sources[i].url != st.sources[j].url)
    && (st.sources == [] <==> st.blocks == [])
  }

  lemma GoodAdd(st: Collected, p: Post, more: seq<string>, maxPosts: nat)
    requires Good(st, maxPosts) && |st.sources| < maxPosts && p.url !in st.seen
    ensures Good(Collected(st.blocks + [PostHeader(p)] + more, st.sources + [Cite(p)], st.seen + {p.url}), maxPosts)
  {
    var sources := st.sources + [Cite(p)];
    forall u | u in SourceUrls(sources)
      ensures u in SourceUrls(st.sources) + {p.url}
    {
      var i :| 0 <= i < |sources| && sources[i].url == u;
      if i < |st.sources| {
        assert sources[i] == st.sources[i];
      }
    }
    forall u | u in SourceUrls(st.sources)
      ensures u in SourceUrls(sources)
    {
      var i :| 0 <= i < |st.sources| && st.sources[i].url == u;
      assert sources[i] == st.sources[i];
    }
    assert sources[|st.sources|].url == p.url;
    forall i, j | 0 <= i < j < |sources|
      ensures sources[i].url != sources[j].url
    {
      if j == |st.sources| {
        assert sources[i].url in SourceUrls(st.sources);
      }
    }
  }

  lemma {:induction false} ScanGood(subs: seq<Submission>, st: Collected, maxPosts: nat, maxComments: nat)
    requires Good(st, maxPosts)
    ensures Good(Scan(subs, st, maxPosts, maxComments), maxPosts)
    ensures st.sources <= Scan(subs, st, maxPosts, maxComments).sources
    decreases |subs|
  {
    if subs != [] && |st.sources| < maxPosts {
      var p := subs[0].post;
      if p.url in st.seen || p.numComments < 3 {
        ScanGood(subs[1..], st, maxPosts, maxComments);
      } else {
        match subs[0].comments
        case LoadRaised =>
          GoodAdd(st, p, [], maxPosts);
          assert st.blocks + [PostHeader(p)] + [] == st.blocks + [PostHeader(p)];
        case Loaded(bodies) =>
          var more := CommentBlocks(bodies, LongerThan20, maxComments, Some(1500));
          GoodAdd(st, p, more, maxPosts);
          var next := Collected(st.blocks + [PostHeader(p)] + more, st.sources + [Cite(p)], st.seen + {p.url});
          ScanGood(subs[1..], next, maxPosts, maxComments);
      }
    }
  }

  lemma {:induction false} RunGood(queries: seq<string>, search: string -> seq<Submission>, st: Collected,
                                    maxPosts: nat, maxComments: nat)
    requires Good(st, maxPosts)
    ensures Good(Run(queries, search, st, maxPosts, maxComments), maxPosts)
    ensures st.sources <= Run(queries, search, st, maxPosts, maxComments).sources
    decreases |queries|
  {
    if queries != [] && |st.sources| < maxPosts {
      var next := Scan(search(queries[0]), st, maxPosts, maxComments);
      ScanGood(search(queries[0]), st, maxPosts, maxComments);
      RunGood(queries[1..], search, next, maxPosts, maxComments);
    }
  }

  /** Whatever the searches and comment loads do: at most `maxPosts`
      sources, none cited twice, and the result is the not-found error
      naming the product exactly when no submission was accepted. */
  lemma ScrapeOutcomes(name: string, search: string -> seq<Submission>, maxPosts: nat, maxComments: nat)
    ensures var r := Scrape(name, None, search, maxPosts, maxComments);
      && (r.NotFound? <==> Collect(name, search, maxPosts, maxComments).sources == [])
      && (r.NotFound? ==> Strings.Contains(r.error, name))
      && (r.Scraped? ==> |r.sources| <= maxPosts)
      && (r.Scraped? ==> forall i, j | 0 <= i < j < |r.sources| :: r.sources[i].url != r.sources[j].url)
  {
    assert SourceUrls([]) == {};
    RunGood(Queries(name), search, Collected([], [], {}), maxPosts, maxComments);
    Strings.ContainsBetween("No Reddit discussions found for '", name, "'. Try a more specific name.");
  }

  /** A raise while loading an accepted submission's comments abandons the
      rest of that search: whatever followed it makes no difference. */
  lemma RaiseAbandonsSearch(sub: Submission, rest1: seq<Submission>, rest2: seq<Submission>,
                            st: Collected, maxPosts: nat, maxComments: nat)
    requires |st.sources| < maxPosts && Eligible(st.seen, sub.post) && sub.comments == LoadRaised
    ensures Scan([sub] + rest1, st, maxPosts, maxComments) == Scan([sub] + rest2, st, maxPosts, maxComments)
    ensures Scan([sub] + rest1, st, maxPosts, maxComments).sources == st.sources + [Cite(sub.post)]
  {
    assert ([sub] + rest1)[0] == sub && ([sub] + rest2)[0] == sub;
  }

  // ---------------------------------------------------------------------
  // What the collection amounts to when nothing raises
  // ---------------------------------------------------------------------

  function Posts(subs: seq<Submission>): (r: seq<Post>)
    ensures |r| == |subs|
  {
    seq(|subs|, i requires 0 <= i < |subs| => subs[i].post)
  }

  function Stream(queries: seq<string>, search: string -> seq<Submission>): seq<Submission>
    decreases |queries|
  {
    if queries == [] then [] else search(queries[0]) + Stream(queries[1..], search)
  }

  function Cites(acc: seq<Post>): seq<Citation> {
    seq(|acc|, i requires 0 <= i < |acc| => Cite(acc[i]))
  }

  /** The state's sources and seen urls are those of accepting `acc`. */
  predicate Tracks(st: Collected, acc: seq<Post>) {
    st.sources == Cites(acc) && st.seen == UrlSet(acc)
  }

  lemma TracksSnoc(st: Collected, acc: seq<Post>, p: Post, more: seq<string>)
    requires Tracks(st, acc)
    ensures Tracks(Collected(st.blocks + [PostHeader(p)] + more, st.sources + [Cite(p)], st.seen + {p.url}), acc + [p])
  {
    assert Cites(acc + [p]) == Cites(acc) + [Cite(p)];
    UrlSetAppend(acc, [p]);
    UrlSetSingle(p);
  }

  lemma {:induction false} ScanTracks(subs: seq<Submission>, st: Collected, acc: seq<Post>,
                                       maxPosts: nat, maxComments: nat)
    requires Tracks(st, acc) && |acc| <= maxPosts && NoRaise(subs)
    ensures Tracks(Scan(subs, st, maxPosts, maxComments),
                   Take(acc + Select(UrlSet(acc), Posts(subs)), maxPosts))
    decreases |subs|
  {
    var sel := Select(UrlSet(acc), Posts(subs));
    if subs == [] || |acc| == maxPosts {
      TakeAppend(acc, sel, maxPosts);
      assert Take(acc + sel, maxPosts) == acc by {
        if subs == [] {
          assert acc + sel == acc;
        }
      }
    } else {
      var p := subs[0].post;
      assert Posts(subs)[0] == p && Posts(subs)[1..] == Posts(subs[1..]);
      assert NoRaise(subs[1..]);
      if Eligible(UrlSet(acc), p) {
        var more := CommentBlocks(subs[0].comments.bodies, LongerThan20, maxComments, Some(1500));
        var next := Collected(st.blocks + [PostHeader(p)] + more, st.sources + [Cite(p)], st.seen + {p.url});
        TracksSnoc(st, acc, p, more);
        ScanTracks(subs[1..], next, acc + [p], maxPosts, maxComments);
        SelectAccepts(Posts(subs), acc);
        ScanAcceptStep(subs, st, maxPosts, maxComments);
      } else {
        ScanTracks(subs[1..], st, acc, maxPosts, maxComments);
      }
    }
  }

  lemma ScanAcceptStep(subs: seq<Submission>, st: Collected, maxPosts: nat, maxComments: nat)
    requires subs != [] && |st.sources| < maxPosts && subs[0].comments.Loaded?
    requires subs[0].post.url !in st.seen && subs[0].post.numComments >= 3
    ensures var p := subs[0].post;
      var more := CommentBlocks(subs[0].comments.bodies, LongerThan20, maxComments, Some(1500));
      Scan(subs, st, maxPosts, maxComments)
        == Scan(subs[1..], Collected(st.blocks + [PostHeader(p)] + more, st.sources + [Cite(p)], st.seen + {p.url}),
                maxPosts, maxComments)
  {
  }

  lemma StreamPosts(a: seq<Submission>, b: seq<Submission>)
    ensures Posts(a + b) == Posts(a) + Posts(b)
    ensures NoRaise(a + b) ==> NoRaise(a) && NoRaise(b)
  {
    if NoRaise(a + b) {
      forall i | 0 <= i < |b|
        ensures b[i].comments.Loaded?
      {
        assert (a + b)[|a| + i] == b[i];
      }
      forall i | 0 <= i < |a|
        ensures a[i].comments.Loaded?
      {
        assert (a + b)[i] == a[i];
      }
    }
  }

  lemma {:induction false} RunTracks(queries: seq<string>, search: string -> seq<Submission>, st: Collected,
                                      acc: seq<Post>, maxPosts: nat, maxComments: nat)
    requires Tracks(st, acc) && |acc| <= maxPosts && NoRaise(Stream(queries, search))
    ensures Tracks(Run(queries, search, st, maxPosts, maxComments),
                   Take(acc + Select(UrlSet(acc), Posts(Stream(queries, search))), maxPosts))
    decreases |queries|
  {
    var all := Select(UrlSet(acc), Posts(Stream(queries, search)));
    if queries == [] || |acc| == maxPosts {
      TakeAppend(acc, all, maxPosts);
      assert Take(acc + all, maxPosts) == acc by {
        if queries == [] {
          assert acc + all == acc;
        }
      }
    } else {
      var first := search(queries[0]);
      var rest := Stream(queries[1..], search);
      StreamPosts(first, rest);
      var acc1 := Take(acc + Select(UrlSet(acc), Posts(first)), maxPosts);
      ScanTracks(first, st, acc, maxPosts, maxComments);
      RunTracks(queries[1..], search, Scan(first, st, maxPosts, maxComments), acc1, maxPosts, maxComments);
      SelectChain(acc, Posts(first), Posts(rest), maxPosts);
    }
  }

  /** When no comment load raises, the sources are those of the first
      `maxPosts` submissions, in query-then-result order, that have at
      least three comments and whose url was not met before among them. */
  lemma CollectSelects(name: string, search: string -> seq<Submission>, maxPosts: nat, maxComments: nat)
    requires NoRaise(Stream(Queries(name), search))
    ensures Collect(name, search, maxPosts, maxComments).sources
      == Cites(Take(Select({}, Posts(Stream(Queries(name), search))), maxPosts))
  {
    assert Tracks(Collected([], [], {}), []);
    RunTracks(Queries(name), search, Collected([], [], {}), [], maxPosts, maxComments);
    assert [] + Select({}, Posts(Stream(Queries(name), search))) == Select({}, Posts(Stream(Queries(name), search)));
    assert UrlSet([]) == {};
  }
}
