/** What the collectors share: a Reddit post as the search listing describes
    it, the citation shown beside an analysis, the comment filters, the text
    block written for a post, and the first-come, de-duplicated, engagement
    filtered selection of posts that the query-based collectors make. */
module Reddit {
  import opened Wrappers
  import opened Seqs
  import Strings

  /** A search hit. `url` is the link the post points to (the post itself
      for a text post); `permalink` is the path of the discussion page. */
  datatype Post = Post(
    title: string,
    selftext: string,
    url: string,
    permalink: string,
    subreddit: string,
    score: int,
    numComments: int)

  /** A `{title, url, subreddit, score}` source entry. */
  datatype Citation = Citation(title: string, url: string, subreddit: string, score: int)

  /** Which comment bodies a collector keeps. The category collectors keep
      every present body; the query collectors also demand more than 20
      characters. */
  datatype CommentRule = AnyPresent | LongerThan20

  /** The body exists and is not a moderation placeholder. A comment whose
      body is missing is given the empty body. */
  predicate Present(body: string) {
    body != "" && body != "[removed]" && body != "[deleted]"
  }

  predicate Keeps(rule: CommentRule, body: string) {
    Present(body) && (rule == LongerThan20 ==> |body| > 20)
  }

  /** Loading a submission's comment tree through the Python SDK: the bodies
      in order, or an exception. */
  datatype CommentLoad = Loaded(bodies: seq<string>) | LoadRaised

  datatype Submission = Submission(post: Post, comments: CommentLoad)

  /** No submission's comment load raised. */
  predicate NoRaise(subs: seq<Submission>) {
    forall i | 0 <= i < |subs| :: subs[i].comments.Loaded?
  }

  /** The four searches both query collectors run, in order. */
  function Queries(name: string): (r: seq<string>)
    ensures |r| == 4 && r[3] == name
    ensures forall i | 0 <= i < |r| :: Strings.Contains(r[i], name)
  {
    Strings.ContainsBetween("\"", name, "\" review");
    Strings.ContainsBetween("\"", name, "\" thoughts");
    Strings.ContainsBetween("\"", name, "\" vs");
    Strings.ContainsBetween("", name, "");
    assert "" + name + "" == name;
    ["\"" + name + "\" review", "\"" + name + "\" thoughts", "\"" + name + "\" vs", name]
  }

  /** A subreddit name as the Python collectors hand it to the SDK,
      `name.replace("r/", "")`: every occurrence, found left to
      right without overlap, removed. */
  function RemoveRSlash(s: string): (r: string)
    ensures |r| <= |s|
  {
    if |s| < 2 then s
    else if s[0] == 'r' && s[1] == '/' then RemoveRSlash(s[2..])
    else [s[0]] + RemoveRSlash(s[1..])
  }

  /** A name without a slash is searched as it is. */
  lemma {:induction false} RemoveRSlashKeeps(s: string)
    requires '/' !in s
    ensures RemoveRSlash(s) == s
  {
    if |s| >= 2 {
      assert s[0] == s[0..1][0];
      assert '/' !in s[1..];
      RemoveRSlashKeeps(s[1..]);
    }
  }

  /** A leading `r/` is dropped. */
  lemma RemoveRSlashPrefix(s: string)
    requires '/' !in s
    ensures RemoveRSlash("r/" + s) == s
  {
    assert ("r/" + s)[2..] == s;
    RemoveRSlashKeeps(s);
  }

  /** The bodies the rule keeps, in order. */
  function Kept(rule: CommentRule, bodies: seq<string>): (r: seq<string>)
    ensures |r| <= |bodies|
  {
    if bodies == [] then []
    else
      var init := bodies[..|bodies| - 1];
      var last := bodies[|bodies| - 1];
      Kept(rule, init) + (if Keeps(rule, last) then [last] else [])
  }

  /** A body is kept exactly when it occurs and the rule accepts it. */
  lemma {:induction false} KeptMembers(rule: CommentRule, bodies: seq<string>)
    ensures forall b :: b in Kept(rule, bodies) <==> b in bodies && Keeps(rule, b)
    decreases |bodies|
  {
    if bodies != [] {
      var init := bodies[..|bodies| - 1];
      assert bodies == init + [bodies[|bodies| - 1]];
      KeptMembers(rule, init);
    }
  }

  lemma {:induction false} KeptAppend(rule: CommentRule, a: seq<string>, b: seq<string>)
    ensures Kept(rule, a + b) == Kept(rule, a) + Kept(rule, b)
    decreases |b|
  {
    if b == [] {
      assert a + b == a;
    } else {
      var init := b[..|b| - 1];
      assert a + b == (a + init) + [b[|b| - 1]];
      assert (a + b)[..|a + b| - 1] == a + init;
      KeptAppend(rule, a, init);
    }
  }

  /** A body cut to `width` characters, or whole when there is no width. */
  function Clip(body: string, width: Option<nat>): (r: string)
    ensures r <= body
    ensures width.None? ==> r == body
    ensures width.Some? ==> |r| == (if |body| <= width.value then |body| else width.value)
  {
    match width
    case None => body
    case Some(n) => Take(body, n)
  }

  /** The text block of one kept comment. */
  function CommentLine(body: string, width: Option<nat>): string {
    "Comment: " + Clip(body, width)
  }

  function Lines(bodies: seq<string>, width: Option<nat>): (r: seq<string>)
    ensures |r| == |bodies|
    ensures forall i | 0 <= i < |bodies| :: r[i] == CommentLine(bodies[i], width)
  {
    seq(|bodies|, i requires 0 <= i < |bodies| => CommentLine(bodies[i], width))
  }

  /** `line` is the block of some body of `bodies` that the rule keeps. */
  predicate BlockOfKept(line: string, bodies: seq<string>, rule: CommentRule, width: Option<nat>) {
    exists b | b in bodies && Keeps(rule, b) :: line == CommentLine(b, width)
  }

  /** The comment blocks of one post: the first `cap` bodies the rule keeps,
      each cut to `width`. */
  function CommentBlocks(bodies: seq<string>, rule: CommentRule, cap: nat, width: Option<nat>): (r: seq<string>)
    ensures |r| <= cap
    ensures |r| == if |Kept(rule, bodies)| <= cap then |Kept(rule, bodies)| else cap
    ensures forall i | 0 <= i < |r| :: BlockOfKept(r[i], bodies, rule, width)
    ensures forall i | 0 <= i < |r| :: r[i] == CommentLine(Kept(rule, bodies)[i], width)
  {
    var picked := Take(Kept(rule, bodies), cap);
    PickedKept(rule, bodies, picked, width);
    Lines(picked, width)
  }

  lemma PickedKept(rule: CommentRule, bodies: seq<string>, picked: seq<string>, width: Option<nat>)
    requires picked <= Kept(rule, bodies)
    ensures forall i | 0 <= i < |picked| :: BlockOfKept(Lines(picked, width)[i], bodies, rule, width)
  {
    KeptMembers(rule, bodies);
    forall i | 0 <= i < |picked|
      ensures BlockOfKept(Lines(picked, width)[i], bodies, rule, width)
    {
      var b := picked[i];
      assert b == Kept(rule, bodies)[i];
      assert b in bodies && Keeps(rule, b);
      assert Lines(picked, width)[i] == CommentLine(b, width);
    }
  }

  /** The comment loop: walk the bodies, stop once `cap` are kept, and keep
      a body when the rule accepts it. */
  method KeepComments(bodies: seq<string>, rule: CommentRule, cap: nat, width: Option<nat>)
    returns (lines: seq<string>)
    ensures lines == CommentBlocks(bodies, rule, cap, width)
  {
    lines := [];
    var count := 0;
    var i := 0;
    while i < |bodies|
      invariant 0 <= i <= |bodies|
      invariant lines == KeptLines(rule, bodies, i, cap, width)
      invariant count == |lines|
    {
      if count >= cap {
        break;
      }
      var body := bodies[i];
      KeepStep(rule, bodies, i, cap, width, lines);
      if Keeps(rule, body) {
        lines := lines + [CommentLine(body, width)];
        count := count + 1;
      }
      i := i + 1;
    }
    KeepDone(rule, bodies, i, cap, width, lines);
  }

  /** The lines the loop has written after looking at the first `i` bodies. */
  function KeptLines(rule: CommentRule, bodies: seq<string>, i: nat, cap: nat, width: Option<nat>): seq<string>
    requires i <= |bodies|
  {
    Lines(Take(Kept(rule, bodies[..i]), cap), width)
  }

  lemma KeepStep(rule: CommentRule, bodies: seq<string>, i: nat, cap: nat, width: Option<nat>, lines: seq<string>)
    requires i < |bodies|
    requires lines == KeptLines(rule, bodies, i, cap, width) && |lines| < cap
    ensures Keeps(rule, bodies[i]) ==> lines + [CommentLine(bodies[i], width)] == KeptLines(rule, bodies, i + 1, cap, width)
    ensures !Keeps(rule, bodies[i]) ==> lines == KeptLines(rule, bodies, i + 1, cap, width)
  {
    assert bodies[..i + 1] == bodies[..i] + [bodies[i]];
    KeptStep(rule, bodies[..i], bodies[i], cap);
    if Keeps(rule, bodies[i]) {
      LinesSnoc(Take(Kept(rule, bodies[..i]), cap), bodies[i], width);
    }
  }

  lemma KeepDone(rule: CommentRule, bodies: seq<string>, i: nat, cap: nat, width: Option<nat>, lines: seq<string>)
    requires i <= |bodies|
    requires lines == KeptLines(rule, bodies, i, cap, width)
    requires i == |bodies| || |lines| >= cap
    ensures lines == CommentBlocks(bodies, rule, cap, width)
  {
    assert bodies == bodies[..i] + bodies[i..];
    KeptStop(rule, bodies[..i], bodies[i..], cap);
  }

  lemma LinesSnoc(xs: seq<string>, x: string, width: Option<nat>)
    ensures Lines(xs + [x], width) == Lines(xs, width) + [CommentLine(x, width)]
  {
  }

  /** Below the cap, one more body extends the kept prefix by that body when
      the rule keeps it. */
  lemma KeptStep(rule: CommentRule, xs: seq<string>, x: string, cap: nat)
    requires |Take(Kept(rule, xs), cap)| < cap
    ensures Take(Kept(rule, xs + [x]), cap)
      == Take(Kept(rule, xs), cap) + (if Keeps(rule, x) then [x] else [])
  {
    KeptAppend(rule, xs, [x]);
    assert Kept(rule, [x]) == Kept(rule, []) + (if Keeps(rule, x) then [x] else []);
  }

  /** Once the cap is reached, later bodies change nothing. */
  lemma KeptStop(rule: CommentRule, xs: seq<string>, ys: seq<string>, cap: nat)
    requires |Take(Kept(rule, xs), cap)| >= cap || ys == []
    ensures Take(Kept(rule, xs + ys), cap) == Take(Kept(rule, xs), cap)
  {
    KeptAppend(rule, xs, ys);
    TakeAppend(Kept(rule, xs), Kept(rule, ys), cap);
    if ys == [] {
      assert Kept(rule, xs) + Kept(rule, ys) == Kept(rule, xs);
    }
  }

  /** The block written for an accepted post in the query collectors: its
      subreddit, its title, and the first 2000 characters of its body when
      the body is not empty. */
  function PostHeader(p: Post): (r: string)
    ensures var head := "### Post from r/" + p.subreddit + "\n" + "Title: " + p.title + "\n";
      && head <= r
      && (p.selftext == "" ==> r == head)
      && (p.selftext != "" ==>
            r == head + "Body: " + p.selftext[..if |p.selftext| <= 2000 then |p.selftext| else 2000] + "\n")
  {
    "### Post from r/" + p.subreddit + "\n"
      + "Title: " + p.title + "\n"
      + (if p.selftext != "" then "Body: " + Take(p.selftext, 2000) + "\n" else "")
  }

  /** The urls of a sequence of posts. */
  function UrlSet(ps: seq<Post>): set<string> {
    set i | 0 <= i < |ps| :: ps[i].url
  }

  lemma UrlSetAppend(a: seq<Post>, b: seq<Post>)
    ensures UrlSet(a + b) == UrlSet(a) + UrlSet(b)
  {
    forall u | u in UrlSet(a + b)
      ensures u in UrlSet(a) + UrlSet(b)
    {
      var i :| 0 <= i < |a + b| && (a + b)[i].url == u;
      if i >= |a| {
        assert b[i - |a|].url == u;
      }
    }
    forall u | u in UrlSet(a)
      ensures u in UrlSet(a + b)
    {
      var i :| 0 <= i < |a| && a[i].url == u;
      assert (a + b)[i] == a[i];
    }
    forall u | u in UrlSet(b)
      ensures u in UrlSet(a + b)
    {
      var i :| 0 <= i < |b| && b[i].url == u;
      assert (a + b)[|a| + i] == b[i];
    }
  }

  lemma UrlSetSingle(p: Post)
    ensures UrlSet([p]) == {p.url}
  {
    assert [p][0] == p;
  }

  /** A post a collector accepts when it has not yet seen its url: one with
      at least three comments. */
  predicate Eligible(seen: set<string>, p: Post) {
    p.url !in seen && p.numComments >= 3
  }

  /** The posts of a result stream a collector would accept with no cap:
      each eligible post in order, its url then counting as seen. A post
      turned down for too few comments leaves its url unseen. */
  function Select(seen: set<string>, posts: seq<Post>): (r: seq<Post>)
    ensures |r| <= |posts|
    decreases |posts|
  {
    if posts == [] then []
    else if Eligible(seen, posts[0]) then [posts[0]] + Select(seen + {posts[0].url}, posts[1..])
    else Select(seen, posts[1..])
  }

  /** Everything selected comes from the stream, is engaged enough, was not
      seen beforehand, and no url is selected twice. */
  lemma {:induction false} SelectSound(seen: set<string>, posts: seq<Post>)
    ensures forall p | p in Select(seen, posts) :: p in posts && p.numComments >= 3 && p.url !in seen
    ensures forall i, j | 0 <= i < j < |Select(seen, posts)| ::
      Select(seen, posts)[i].url != Select(seen, posts)[j].url
    decreases |posts|
  {
    if posts != [] {
      var p := posts[0];
      if Eligible(seen, p) {
        SelectSound(seen + {p.url}, posts[1..]);
        var r := Select(seen, posts);
        assert r == [p] + Select(seen + {p.url}, posts[1..]);
        forall i, j | 0 <= i < j < |r|
          ensures r[i].url != r[j].url
        {
          if i == 0 {
            assert r[j] in Select(seen + {p.url}, posts[1..]);
          } else {
            assert r[i] == Select(seen + {p.url}, posts[1..])[i - 1];
          }
        }
      } else {
        SelectSound(seen, posts[1..]);
      }
    }
  }

  /** No eligible post is lost: every post with enough comments whose url
      was not seen beforehand has its url among the selected ones (its
      first eligible occurrence is the one selected). */
  lemma {:induction false} SelectComplete(seen: set<string>, posts: seq<Post>)
    ensures forall p | p in posts && p.numComments >= 3 && p.url !in seen ::
      p.url in UrlSet(Select(seen, posts))
    decreases |posts|
  {
    if posts != [] {
      var q := posts[0];
      var r := Select(seen, posts);
      forall p | p in posts && p.numComments >= 3 && p.url !in seen
        ensures p.url in UrlSet(r)
      {
        if Eligible(seen, q) {
          SelectComplete(seen + {q.url}, posts[1..]);
          UrlSetAppend([q], Select(seen + {q.url}, posts[1..]));
          UrlSetSingle(q);
          assert q.url in UrlSet(r);
          if p.url != q.url {
            assert p in posts[1..];
          }
        } else {
          SelectComplete(seen, posts[1..]);
          assert p != q;
          assert p in posts[1..];
        }
      }
    }
  }

  /** Selecting from two streams in a row: the second starts with the urls
      the first selected counted as seen. */
  lemma {:induction false} SelectAppend(seen: set<string>, a: seq<Post>, b: seq<Post>)
    ensures Select(seen, a + b) == Select(seen, a) + Select(seen + UrlSet(Select(seen, a)), b)
    decreases |a|
  {
    if a == [] {
      assert a + b == b;
      assert seen + UrlSet([]) == seen;
    } else {
      var p := a[0];
      assert (a + b)[0] == p && (a + b)[1..] == a[1..] + b;
      if Eligible(seen, p) {
        SelectAppend(seen + {p.url}, a[1..], b);
        var rest := Select(seen + {p.url}, a[1..]);
        UrlSetAppend([p], rest);
        UrlSetSingle(p);
        assert seen + {p.url} + UrlSet(rest) == seen + UrlSet([p] + rest);
      } else {
        SelectAppend(seen, a[1..], b);
      }
    }
  }

  /** Selecting result list by result list, keeping the first `cap` after
      each, keeps what one pass over all results would. */
  lemma SelectChain(acc: seq<Post>, first: seq<Post>, rest: seq<Post>, cap: nat)
    requires |acc| <= cap
    ensures var acc1 := Take(acc + Select(UrlSet(acc), first), cap);
      Take(acc1 + Select(UrlSet(acc1), rest), cap)
        == Take(acc + Select(UrlSet(acc), first + rest), cap)
  {
    var s0 := Select(UrlSet(acc), first);
    var acc1 := Take(acc + s0, cap);
    SelectAppend(UrlSet(acc), first, rest);
    var later := Select(UrlSet(acc) + UrlSet(s0), rest);
    assert acc + Select(UrlSet(acc), first + rest) == (acc + s0) + later;
    if |acc + s0| <= cap {
      UrlSetAppend(acc, s0);
      assert acc1 == acc + s0;
    } else {
      TakeAppend(acc + s0, later, cap);
      TakeAppend(acc1, Select(UrlSet(acc1), rest), cap);
    }
  }

  /** Accepting the first post of a stream, seen from the selection. */
  lemma SelectAccepts(posts: seq<Post>, acc: seq<Post>)
    requires posts != [] && Eligible(UrlSet(acc), posts[0])
    ensures acc + Select(UrlSet(acc), posts)
      == (acc + [posts[0]]) + Select(UrlSet(acc + [posts[0]]), posts[1..])
  {
    var p := posts[0];
    var rest := Select(UrlSet(acc) + {p.url}, posts[1..]);
    assert Select(UrlSet(acc), posts) == [p] + rest;
    UrlSetAppend(acc, [p]);
    UrlSetSingle(p);
    assert UrlSet(acc + [p]) == UrlSet(acc) + {p.url};
    AppendAssoc(acc, [p], rest);
  }
}
