/** The Python collector of the category service: the product is searched
    in each subreddit of the chosen category in turn, every submission a
    search yields is kept with its present comments (up to `maxComments`,
    10 by default), and the walk over subreddits stops once at least
    `2 * maxPosts` submissions (10 by default) have been gathered. A search
    yields the submissions produced before it ended or raised; loading a
    submission's comments can raise, which abandons that subreddit. */
module CategoryScraper {
  import opened Wrappers
  import opened Seqs
  import opened Reddit
  import Strings

  /** The subreddits of each category, in search order. */
  const Categories: map<string, seq<string>> := map[
    "General" := ["BuyItForLife", "GoodValue", "productreviews", "Frugal", "HelpMeFind", "whatshouldibuy"],
    "Technology & Electronics" := [
      "technology", "gadgets", "hardware", "laptops", "suggestalaptop", "buildapc", "pcmasterrace",
      "Android", "ios", "smartphones", "headphones", "audiophile", "MouseReview", "Monitors",
      "techsupport", "apple", "Microsoft", "GooglePixel", "HomeAutomation", "Networking"],
    "Home Goods & Appliances" := [
      "Appliances", "HomeImprovement", "vacuumcleaners", "Coffee", "Cooking", "BuyItForLife",
      "CleaningTips", "furniture", "Mattress", "homeautomation"],
    "Fashion & Apparel" := [
      "malefashionadvice", "femalefashionadvice", "OUTFITS", "fashionadvice", "goodyearwelt",
      "rawdenim", "Watches", "streetwear", "frugalmalefashion", "frugalfemalefashion", "backpacks"],
    "Beauty & Personal Care" := [
      "SkincareAddiction", "MakeupAddiction", "AsianBeauty", "beauty", "wicked_edge", "fragrance",
      "HaircareScience", "brownbeauty", "VeganBeauty", "CrueltyFreeMUA"],
    "Outdoors, Sports & Travel Gear" := [
      "CampingandHiking", "CampingGear", "outdoors", "hiking", "Backpacking", "Ultralight",
      "WildernessBackpacking", "Cycling", "RunningShoeGeeks", "onebag", "travel", "skiing",
      "snowboarding", "Fishing", "ClimbingGear"],
    "Hobbies & Specific Interests" := [
      "Gaming", "pcgaming", "photography", "audiophile", "headphones", "MechanicalKeyboards",
      "books", "suggestmeabook", "boardgames", "lego", "gardening", "DIY", "Gunpla", "Homebrewing"]
  ]

  /** A submission's own block: its title, and its body when there is one. */
  function Heading(p: Post): (r: string)
    ensures "Title: " + p.title + "\n" <= r
    ensures p.selftext == "" ==> r == "Title: " + p.title + "\n"
    ensures p.selftext != "" ==> r == "Title: " + p.title + "\n" + "Body: " + p.selftext + "\n"
  {
    "Title: " + p.title + "\n" + (if p.selftext != "" then "Body: " + p.selftext + "\n" else "")
  }

  /** The source entry; the subreddit is the searched name. */
  function CiteIn(p: Post, sub: string): Citation {
    Citation(p.title, p.url, sub, p.score)
  }

  datatype Gathered = Gathered(blocks: seq<string>, sources: seq<Citation>)

  /** The walk over one subreddit's submissions: each adds one source, its
      block and its comment lines; a raise while loading comments keeps
      that submission's block and source and abandons the rest. */
  function ScanSub(subs: seq<Submission>, sub: string, st: Gathered, maxComments: nat): (r: Gathered)
    ensures |st.sources| <= |r.sources| <= |st.sources| + |subs|
    ensures st.sources <= r.sources && st.blocks <= r.blocks
    ensures |r.sources| - |st.sources| <= |r.blocks| - |st.blocks|
    decreases |subs|
  {
    if subs == [] then st
    else
      var p := subs[0].post;
      var added := Gathered(st.blocks + [Heading(p)], st.sources + [CiteIn(p, sub)]);
      match subs[0].comments
      case LoadRaised => added
      case Loaded(bodies) =>
        ScanSub(subs[1..], sub,
                added.(blocks := added.blocks + CommentBlocks(bodies, AnyPresent, maxComments, None)),
                maxComments)
  }

  /** The walk over the category's subreddits, stopped before a subreddit
      once `2 * maxPosts` submissions have been gathered. */
  function Run(names: seq<string>, product: string, search: (string, string) -> seq<Submission>,
               st: Gathered, maxPosts: nat, maxComments: nat): Gathered
    decreases |names|
  {
    if names == [] || |st.sources| >= 2 * maxPosts then st
    else
      var clean := RemoveRSlash(names[0]);
      Run(names[1..], product, search, ScanSub(search(clean, product), clean, st, maxComments), maxPosts, maxComments)
  }

  datatype ScrapeResult =
    | Scraped(textBlob: string, sources: seq<Citation>)
    | Failed(error: string)
    | ClientRaised(message: string)

  const InvalidCategory := "Invalid category"
  const NoResults := "No results found"

  predicate KnownCategory(category: string) {
    category in Categories && Categories[category] != []
  }

  /** The scrape. The category is looked up before the client is built;
      building the client can raise, and that exception is not caught. */
  function Scrape(product: string, category: string, clientError: Option<string>,
                  search: (string, string) -> seq<Submission>, maxPosts: nat, maxComments: nat): ScrapeResult
  {
    if !KnownCategory(category) then Failed(InvalidCategory)
    else if clientError.Some? then ClientRaised(clientError.value)
    else
      var st := Run(Categories[category], product, search, Gathered([], []), maxPosts, maxComments);
      if st.blocks == [] then Failed(NoResults)
      else Scraped(Strings.Join(st.blocks, "\n\n"), st.sources)
  }

  /** The loop over one subreddit's submissions as written, counting every
      submission in `postsFound`. */
  method ScanSubreddit(subs: seq<Submission>, sub: string, blocks0: seq<string>, sources0: seq<Citation>,
                       postsFound0: nat, maxComments: nat)
    returns (blocks: seq<string>, sources: seq<Citation>, postsFound: nat)
    requires postsFound0 == |sources0|
    ensures Gathered(blocks, sources) == ScanSub(subs, sub, Gathered(blocks0, sources0), maxComments)
    ensures postsFound == |sources|
  {
    blocks, sources, postsFound := blocks0, sources0, postsFound0;
    var i := 0;
    while i < |subs|
      invariant 0 <= i <= |subs|
      invariant postsFound == |sources|
      invariant ScanSub(subs[i..], sub, Gathered(blocks, sources), maxComments)
        == ScanSub(subs, sub, Gathered(blocks0, sources0), maxComments)
    {
      var submission := subs[i];
      assert subs[i..][1..] == subs[i + 1..];
      postsFound := postsFound + 1;
      blocks := blocks + [Heading(submission.post)];
      sources := sources + [CiteIn(submission.post, sub)];
      match submission.comments {
        case LoadRaised =>
          break;
        case Loaded(bodies) =>
          var lines := KeepComments(bodies, AnyPresent, maxComments, None);
          blocks := blocks + lines;
      }
      i := i + 1;
    }
  }

  method ScrapeReddit(product: string, category: string, clientError: Option<string>,
                      search: (string, string) -> seq<Submission>, maxPosts: nat, maxComments: nat)
    returns (r: ScrapeResult)
    ensures r == Scrape(product, category, clientError, search, maxPosts, maxComments)
  {
    if category !in Categories || Categories[category] == [] {
      return Failed(InvalidCategory);
    }
    var names := Categories[category];
    if clientError.Some? {
      return ClientRaised(clientError.value);
    }
    var blocks: seq<string> := [];
    var sources: seq<Citation> := [];
    var postsFound: nat := 0;
    var k := 0;
    while k < |names|
      invariant 0 <= k <= |names|
      invariant postsFound == |sources|
      invariant Run(names[k..], product, search, Gathered(blocks, sources), maxPosts, maxComments)
        == Run(names, product, search, Gathered([], []), maxPosts, maxComments)
    {
      if postsFound >= maxPosts * 2 {
        break;
      }
      assert names[k..][1..] == names[k + 1..];
      var clean := RemoveRSlash(names[k]);
      blocks, sources, postsFound := ScanSubreddit(search(clean, product), clean, blocks, sources, postsFound, maxComments);
      k := k + 1;
    }
    if |blocks| == 0 {
      r := Failed(NoResults);
    } else {
      r := Scraped(Strings.Join(blocks, "\n\n"), sources);
    }
  }

  // ---------------------------------------------------------------------
  // Properties
  // ---------------------------------------------------------------------

  /** An unknown category is refused before the client is built or any
      search runs. */
  lemma CategoryCheckedFirst(product: string, category: string, clientError: Option<string>,
                             search1: (string, string) -> seq<Submission>,
                             search2: (string, string) -> seq<Submission>, maxPosts: nat, maxComments: nat)
    requires category !in Categories
    ensures Scrape(product, category, clientError, search1, maxPosts, maxComments) == Failed(InvalidCategory)
    ensures Scrape(product, category, clientError, search1, maxPosts, maxComments)
      == Scrape(product, category, None, search2, maxPosts, maxComments)
  {
  }

  /** The subreddit names as searched. */
  function Searched(names: seq<string>): set<string> {
    set n | n in names :: RemoveRSlash(n)
  }

  /** There are blocks exactly when some submission was gathered, and
      every source names one of the searched subreddits. */
  lemma {:induction false} RunShape(names: seq<string>, all: seq<string>, product: string,
                                    search: (string, string) -> seq<Submission>,
                                    st: Gathered, maxPosts: nat, maxComments: nat)
    requires forall n | n in names :: n in all
    requires st.sources == [] <==> st.blocks == []
    requires forall i | 0 <= i < |st.sources| :: st.sources[i].subreddit in Searched(all)
    ensures var r := Run(names, product, search, st, maxPosts, maxComments);
      && (r.sources == [] <==> r.blocks == [])
      && forall i | 0 <= i < |r.sources| :: r.sources[i].subreddit in Searched(all)
    decreases |names|
  {
    if names != [] && |st.sources| < 2 * maxPosts {
      var clean := RemoveRSlash(names[0]);
      assert clean in Searched(all);
      var next := ScanSub(search(clean, product), clean, st, maxComments);
      ScanSubNames(search(clean, product), clean, st, maxComments);
      assert forall i | 0 <= i < |st.sources| :: next.sources[i] == st.sources[i];
      RunShape(names[1..], all, product, search, next, maxPosts, maxComments);
    }
  }

  lemma {:induction false} ScanSubNames(subs: seq<Submission>, sub: string, st: Gathered, maxComments: nat)
    ensures forall i | |st.sources| <= i < |ScanSub(subs, sub, st, maxComments).sources| ::
      ScanSub(subs, sub, st, maxComments).sources[i].subreddit == sub
    decreases |subs|
  {
    if subs != [] {
      var p := subs[0].post;
      var added := Gathered(st.blocks + [Heading(p)], st.sources + [CiteIn(p, sub)]);
      match subs[0].comments
      case LoadRaised =>
      case Loaded(bodies) =>
        var next := added.(blocks := added.blocks + CommentBlocks(bodies, AnyPresent, maxComments, None));
        ScanSubNames(subs[1..], sub, next, maxComments);
    }
  }

  /** The outcomes for a known category and a client that builds: the
      "No results found" error exactly when no submission was gathered, and
      otherwise sources that all name a subreddit of the category. */
  lemma ScrapeOutcomes(product: string, category: string, search: (string, string) -> seq<Submission>,
                       maxPosts: nat, maxComments: nat)
    requires KnownCategory(category)
    ensures var st := Run(Categories[category], product, search, Gathered([], []), maxPosts, maxComments);
      var r := Scrape(product, category, None, search, maxPosts, maxComments);
      && (r == Failed(NoResults) <==> st.sources == [])
      && (r.Scraped? ==> r.sources == st.sources && r.sources != [])
      && (r.Scraped? ==> forall i | 0 <= i < |r.sources| :: r.sources[i].subreddit in Searched(Categories[category]))
  {
    RunShape(Categories[category], Categories[category], product, search, Gathered([], []), maxPosts, maxComments);
  }

  /** With every search yielding at most `maxPosts` submissions (the limit
      the search is given), fewer than `3 * maxPosts` are gathered: a
      subreddit is entered only below `2 * maxPosts` and adds at most
      `maxPosts`. */
  lemma {:induction false} RunBound(names: seq<string>, product: string, search: (string, string) -> seq<Submission>,
                                    st: Gathered, maxPosts: nat, maxComments: nat)
    requires forall n | n in names :: |search(RemoveRSlash(n), product)| <= maxPosts
    requires |st.sources| < 3 * maxPosts || st.sources == []
    ensures var r := Run(names, product, search, st, maxPosts, maxComments);
      |r.sources| < 3 * maxPosts || r.sources == []
    decreases |names|
  {
    if names != [] && |st.sources| < 2 * maxPosts {
      var clean := RemoveRSlash(names[0]);
      assert names[0] in names;
      var next := ScanSub(search(clean, product), clean, st, maxComments);
      RunBound(names[1..], product, search, next, maxPosts, maxComments);
    }
  }

  // ---------------------------------------------------------------------
  // What the walk amounts to when no comment load raises
  // ---------------------------------------------------------------------

  function CitesIn(subs: seq<Submission>, sub: string): seq<Citation> {
    seq(|subs|, i requires 0 <= i < |subs| => CiteIn(subs[i].post, sub))
  }

  /** Every submission of every listed subreddit, in search order. */
  function Listed(names: seq<string>, product: string, search: (string, string) -> seq<Submission>): seq<Citation>
    decreases |names|
  {
    if names == [] then []
    else
      var clean := RemoveRSlash(names[0]);
      CitesIn(search(clean, product), clean) + Listed(names[1..], product, search)
  }

  lemma {:induction false} ScanSubAll(subs: seq<Submission>, sub: string, st: Gathered, maxComments: nat)
    requires NoRaise(subs)
    ensures ScanSub(subs, sub, st, maxComments).sources == st.sources + CitesIn(subs, sub)
    decreases |subs|
  {
    if subs == [] {
      assert st.sources + CitesIn(subs, sub) == st.sources;
    } else {
      var p := subs[0].post;
      var next := Gathered(st.blocks + [Heading(p)] + CommentBlocks(subs[0].comments.bodies, AnyPresent, maxComments, None),
                           st.sources + [CiteIn(p, sub)]);
      assert NoRaise(subs[1..]);
      ScanSubAll(subs[1..], sub, next, maxComments);
      assert CitesIn(subs, sub) == [CiteIn(p, sub)] + CitesIn(subs[1..], sub);
      AppendAssoc(st.sources, [CiteIn(p, sub)], CitesIn(subs[1..], sub));
    }
  }

  /** The blocks one submission contributes when its comments load: its
      heading, then its first `maxComments` present comments. */
  function SubmissionBlocks(s: Submission, maxComments: nat): seq<string>
    requires s.comments.Loaded?
  {
    [Heading(s.post)] + CommentBlocks(s.comments.bodies, AnyPresent, maxComments, None)
  }

  /** The blocks of every submission, in order. */
  function BlocksIn(subs: seq<Submission>, maxComments: nat): seq<string>
    requires NoRaise(subs)
    decreases |subs|
  {
    if subs == [] then [] else SubmissionBlocks(subs[0], maxComments) + BlocksIn(subs[1..], maxComments)
  }

  /** Without a raise, a subreddit walk appends, submission by submission,
      the heading and then the capped present comments. */
  lemma {:induction false} ScanSubBlocks(subs: seq<Submission>, sub: string, st: Gathered, maxComments: nat)
    requires NoRaise(subs)
    ensures ScanSub(subs, sub, st, maxComments).blocks == st.blocks + BlocksIn(subs, maxComments)
    decreases |subs|
  {
    if subs == [] {
      assert st.blocks + BlocksIn(subs, maxComments) == st.blocks;
    } else {
      var more := SubmissionBlocks(subs[0], maxComments);
      var next := Gathered(st.blocks + more, st.sources + [CiteIn(subs[0].post, sub)]);
      assert NoRaise(subs[1..]);
      ScanSubStep(subs, sub, st, maxComments);
      ScanSubBlocks(subs[1..], sub, next, maxComments);
      AppendAssoc(st.blocks, more, BlocksIn(subs[1..], maxComments));
    }
  }

  /** A submission whose comments load passes the walk on to the next one. */
  lemma ScanSubStep(subs: seq<Submission>, sub: string, st: Gathered, maxComments: nat)
    requires subs != [] && subs[0].comments.Loaded?
    ensures ScanSub(subs, sub, st, maxComments)
      == ScanSub(subs[1..], sub,
                 Gathered(st.blocks + SubmissionBlocks(subs[0], maxComments), st.sources + [CiteIn(subs[0].post, sub)]),
                 maxComments)
  {
    AppendAssoc(st.blocks, [Heading(subs[0].post)], CommentBlocks(subs[0].comments.bodies, AnyPresent, maxComments, None));
  }

  /** A raise while loading the comments of submission `k` keeps that
      submission's heading and source and drops everything after it. */
  lemma {:induction false} ScanSubRaise(subs: seq<Submission>, sub: string, st: Gathered, maxComments: nat, k: nat)
    requires k < |subs| && NoRaise(subs[..k]) && subs[k].comments.LoadRaised?
    ensures var r := ScanSub(subs, sub, st, maxComments);
      && r.blocks == st.blocks + BlocksIn(subs[..k], maxComments) + [Heading(subs[k].post)]
      && r.sources == st.sources + CitesIn(subs[..k + 1], sub)
    decreases k
  {
    if k == 0 {
      assert BlocksIn(subs[..0], maxComments) == [];
      assert CitesIn(subs[..1], sub) == [CiteIn(subs[0].post, sub)];
    } else {
      var more := SubmissionBlocks(subs[0], maxComments);
      var next := Gathered(st.blocks + more, st.sources + [CiteIn(subs[0].post, sub)]);
      PrefixStep(subs, sub, maxComments, k);
      ScanSubStep(subs, sub, st, maxComments);
      ScanSubRaise(subs[1..], sub, next, maxComments, k - 1);
      AppendAssoc(st.blocks, more, BlocksIn(subs[1..][..k - 1], maxComments));
      AppendAssoc(st.sources, [CiteIn(subs[0].post, sub)], CitesIn(subs[1..][..k], sub));
    }
  }

  /** The first `k` submissions split as the first one and the next `k - 1`. */
  lemma PrefixStep(subs: seq<Submission>, sub: string, maxComments: nat, k: nat)
    requires 0 < k < |subs| && NoRaise(subs[..k])
    ensures subs[0].comments.Loaded? && NoRaise(subs[1..][..k - 1])
    ensures BlocksIn(subs[..k], maxComments) == SubmissionBlocks(subs[0], maxComments) + BlocksIn(subs[1..][..k - 1], maxComments)
    ensures CitesIn(subs[..k + 1], sub) == [CiteIn(subs[0].post, sub)] + CitesIn(subs[1..][..k], sub)
  {
    assert subs[..k][0] == subs[0];
    assert subs[..k][1..] == subs[1..][..k - 1];
    CitesInCons(subs[..k + 1], sub);
    assert subs[..k + 1][1..] == subs[1..][..k];
  }

  lemma CitesInCons(subs: seq<Submission>, sub: string)
    requires subs != []
    ensures CitesIn(subs, sub) == [CiteIn(subs[0].post, sub)] + CitesIn(subs[1..], sub)
  {
  }

  /** When no comment load raises, the sources are every submission of the
      first `m` subreddits, where the walk stopped early only because the
      threshold was met. */
  lemma {:induction false} RunVisitsPrefix(names: seq<string>, product: string,
                                           search: (string, string) -> seq<Submission>,
                                           st: Gathered, maxPosts: nat, maxComments: nat)
    requires forall n | n in names :: NoRaise(search(RemoveRSlash(n), product))
    ensures var r := Run(names, product, search, st, maxPosts, maxComments);
      exists m | 0 <= m <= |names| ::
        && r.sources == st.sources + Listed(names[..m], product, search)
        && (m < |names| ==> |r.sources| >= 2 * maxPosts)
    decreases |names|
  {
    var r := Run(names, product, search, st, maxPosts, maxComments);
    if names == [] || |st.sources| >= 2 * maxPosts {
      assert r == st;
      assert Listed(names[..0], product, search) == [];
      assert r.sources == st.sources + Listed(names[..0], product, search);
    } else {
      var clean := RemoveRSlash(names[0]);
      assert names[0] in names;
      var listing := search(clean, product);
      var next := ScanSub(listing, clean, st, maxComments);
      assert r == Run(names[1..], product, search, next, maxPosts, maxComments);
      ScanSubAll(listing, clean, st, maxComments);
      var rest := names[1..];
      assert forall n | n in rest :: n in names;
      RunVisitsPrefix(rest, product, search, next, maxPosts, maxComments);
      var m :| 0 <= m <= |rest|
        && r.sources == next.sources + Listed(rest[..m], product, search)
        && (m < |rest| ==> |r.sources| >= 2 * maxPosts);
      var cites := CitesIn(listing, clean);
      var later := Listed(rest[..m], product, search);
      assert r.sources == (st.sources + cites) + later;
      AppendAssoc(st.sources, cites, later);
      ListedStep(names, m, product, search);
      assert cites + later == Listed(names[..m + 1], product, search);
      assert m + 1 < |names| ==> |r.sources| >= 2 * maxPosts;
    }
  }

  lemma ListedStep(names: seq<string>, m: nat, product: string, search: (string, string) -> seq<Submission>)
    requires m < |names|
    ensures var clean := RemoveRSlash(names[0]);
      Listed(names[..m + 1], product, search)
        == CitesIn(search(clean, product), clean) + Listed(names[1..][..m], product, search)
  {
    assert names[..m + 1][0] == names[0] && names[..m + 1][1..] == names[1..][..m];
  }
}
