/** The crawl loop (`crawl`, webcrawler.py:30-90): a bounded breadth-first
    traversal over a FIFO frontier, a visited set and a success counter.

    The network, HTML parsing and link resolution are replaced by an oracle
    (`Env.fetch`) that tells, for each URL, whether the work of lines 56-66
    raises, and otherwise the response status, the page text and the links
    of the page already resolved to absolute URLs. What happens after the
    page is counted (keywords at line 70, the CSV row at lines 73-78)
    depends on two further parameters: the collection the stopword test of
    line 103 is applied to, and whether the timestamp call of line 75
    raises. */
module Crawler {
  import opened Base
  import opened KeywordFilter
  import opened Frontier

  /** The caller keeps the first 20 keywords (line 76). */
  const KeywordLimit: nat := 20
  /** The logged content is the first 300 characters of the text (line 77). */
  const SnippetLength: nat := 300

  /** What the fetch-and-parse work of lines 56-66 does with one URL. */
  datatype Page =
    | Raised                                              // an exception before line 67
    | Response(status: int, text: string, links: seq<Url>)

  /** The collaborators of one crawl run. */
  datatype Env = Env(
    fetch: Url -> Page,
    tokenize: string -> seq<string>,   // word_tokenize(text.lower())
    isAlnum: string -> bool,           // str.isalnum
    stop: StopCollection,              // what line 103 tests membership in
    timestampRaises: bool)             // whether the call at line 75 raises

  /** One data row of the CSV log, without its timestamp. */
  datatype Row = Row(url: Url, keywords: seq<string>, snippet: string)

  /** The crawl's state: `crawler_process`, `visited` and `count`, plus the
      URLs passed to the document index (line 66) and the rows written to
      the CSV log (lines 73-78), in order. */
  datatype State = State(
    frontier: seq<Url>,
    visited: set<Url>,
    count: nat,
    indexed: seq<Url>,
    log: seq<Row>)

  /** Lines 32-36: the frontier holds only the seed. */
  function Init(seed: Url): State {
    State([seed], {}, 0, [], [])
  }

  /** The request succeeded with status exactly 200 (line 60). */
  predicate Retrieved(env: Env, url: Url) {
    env.fetch(url).Response? && env.fetch(url).status == 200
  }

  function LogUrls(log: seq<Row>): seq<Url> {
    seq(|log|, i requires 0 <= i < |log| => log[i].url)
  }

  /** Lines 70-78 for a counted page: the keyword filter, then the row. `None`
      when either raises; then nothing is written and no link is enqueued. */
  function Record(env: Env, url: Url, text: string): (r: Option<Row>)
    ensures r.Some? <==>
      !env.timestampRaises && FilterTokens(env.tokenize(text), env.isAlnum, env.stop).Some?
    ensures r.Some? ==>
      var keywords := FilterTokens(env.tokenize(text), env.isAlnum, env.stop).value;
      && r.value.url == url
      && r.value.keywords <= keywords && |r.value.keywords| == Min(KeywordLimit, |keywords|)
      && r.value.snippet <= text && |r.value.snippet| == Min(SnippetLength, |text|)
  {
    var keywords := FilterTokens(env.tokenize(text), env.isAlnum, env.stop);
    if keywords.None? || env.timestampRaises then None
    else Some(Row(url, Prefix(keywords.value, KeywordLimit), Prefix(text, SnippetLength)))
  }

  /** One iteration of the loop body (lines 48-89). */
  function Step(env: Env, seed: Url, s: State): (r: State)
    requires s.frontier != []
    // FIFO: the head is removed, the rest stays in order, new URLs go to the tail
    ensures s.frontier[1..] <= r.frontier
    // a page is counted exactly when it was not visited and came back with status 200
    ensures r.count == (if s.frontier[0] !in s.visited && Retrieved(env, s.frontier[0]) then s.count + 1 else s.count)
    // a page that is not counted changes nothing but the frontier's head
    ensures r.count == s.count ==>
      r.visited == s.visited && r.indexed == s.indexed && r.log == s.log && r.frontier == s.frontier[1..]
    // a counted page is indexed and visited whatever happens afterwards
    ensures r.count == s.count + 1 ==>
      r.visited == s.visited + {s.frontier[0]} && r.indexed == s.indexed + [s.frontier[0]]
    // children are enqueued only when the whole of lines 70-78 succeeded
    ensures r.count == s.count + 1 ==>
      var page := env.fetch(s.frontier[0]);
      match Record(env, s.frontier[0], page.text)
      case None => r.log == s.log && r.frontier == s.frontier[1..]
      case Some(row) => r.log == s.log + [row] && r.frontier == Enqueue(s.frontier[1..], page.links, seed, r.visited)
  {
    var url := s.frontier[0];
    var rest := s.frontier[1..];
    if url in s.visited then s.(frontier := rest)
    else match env.fetch(url)
      case Raised => s.(frontier := rest)
      case Response(status, text, links) =>
        if status != 200 then s.(frontier := rest)
        else
          var visited := s.visited + {url};
          var counted := State(rest, visited, s.count + 1, s.indexed + [url], s.log);
          match Record(env, url, text)
          case None => counted
          case Some(row) => counted.(log := s.log + [row], frontier := Enqueue(rest, links, seed, visited))
  }

  /** The loop of line 45 run to completion from `s`. */
  function Run(env: Env, seed: Url, maxPages: int, s: State): (r: State)
    ensures !(r.count < maxPages && r.frontier != [])
    ensures r.count >= s.count
    decreases maxPages - s.count, |s.frontier|
  {
    if s.count < maxPages && s.frontier != [] then Run(env, seed, maxPages, Step(env, seed, s))
    else s
  }

  /** The invariant of the loop of line 45. */
  ghost predicate Inv(seed: Url, maxPages: int, s: State) {
    // the frontier holds no duplicate and no visited URL
    && NoDup(s.frontier)
    && (forall u :: u in s.frontier ==> u !in s.visited)
    // everything reached is in scope
    && (forall u :: u in s.frontier ==> InScope(seed, u))
    && (forall u :: u in s.visited ==> InScope(seed, u))
    // every counted page was indexed once, and only counted pages were
    && NoDup(s.indexed) && Elems(s.indexed) == s.visited && |s.indexed| == s.count
    // the budget
    && (s.count == 0 || s.count <= maxPages)
    // no URL appears twice in the CSV log, and only visited ones appear
    && NoDup(LogUrls(s.log))
    && (forall u :: u in LogUrls(s.log) ==> u in s.visited)
  }

  lemma InitInv(seed: Url, maxPages: int)
    ensures Inv(seed, maxPages, Init(seed))
  {
  }

  /** One iteration keeps the invariant; in particular the skip branch of
      lines 49-50 is never taken. */
  lemma StepPreservesInv(env: Env, seed: Url, maxPages: int, s: State)
    requires Inv(seed, maxPages, s) && s.frontier != [] && s.count < maxPages
    ensures s.frontier[0] !in s.visited
    ensures Inv(seed, maxPages, Step(env, seed, s))
  {
    var r := Step(env, seed, s);
    var url := s.frontier[0];
    var rest := s.frontier[1..];
    assert forall u :: u in rest ==> u in s.frontier;
    assert url !in rest;
    assert NoDup(rest);
    if r.count == s.count + 1 {
      assert Elems(r.indexed) == Elems(s.indexed) + {url};
      assert NoDup(r.indexed) by {
        assert url !in s.indexed by {
          assert url !in Elems(s.indexed);
        }
      }
      assert LogUrls(r.log) == LogUrls(s.log) || LogUrls(r.log) == LogUrls(s.log) + [url];
      assert NoDup(LogUrls(r.log)) by {
        assert url !in LogUrls(s.log);
      }
      var page := env.fetch(url);
      match Record(env, url, page.text)
      case None =>
      case Some(row) =>
        assert forall u :: u in r.frontier ==> u in rest || (u in page.links && InScope(seed, u) && u !in r.visited) by {
          forall u | u in r.frontier
            ensures u in rest || (u in page.links && InScope(seed, u) && u !in r.visited)
          {
            var k :| 0 <= k < |r.frontier| && r.frontier[k] == u;
            if k >= |rest| {
            } else {
              assert r.frontier[k] == rest[k];
            }
          }
        }
    }
  }

  /** A page that fails before line 67 is not marked visited, so a later page
      that links to it enqueues it again: failures are retried by omission. */
  lemma FailedPageMayBeRequeued(env: Env, seed: Url, s: State)
    requires s.frontier != [] && NoDup(s.frontier)
    requires s.frontier[0] !in s.visited && !Retrieved(env, s.frontier[0])
    ensures var r := Step(env, seed, s);
      && s.frontier[0] !in r.visited
      && (InScope(seed, s.frontier[0]) ==> Admits(seed, r.visited, r.frontier, s.frontier[0]))
  {
    assert s.frontier[0] !in s.frontier[1..];
  }

  /** The invariant holds when the loop of line 45 exits. */
  lemma {:induction false} RunPreservesInv(env: Env, seed: Url, maxPages: int, s: State)
    requires Inv(seed, maxPages, s)
    ensures Inv(seed, maxPages, Run(env, seed, maxPages, s))
    decreases maxPages - s.count, |s.frontier|
  {
    if s.count < maxPages && s.frontier != [] {
      StepPreservesInv(env, seed, maxPages, s);
      RunPreservesInv(env, seed, maxPages, Step(env, seed, s));
    }
  }

  /** The visited set always has exactly `count` elements. */
  lemma VisitedSizeIsCount(seed: Url, maxPages: int, s: State)
    requires Inv(seed, maxPages, s)
    ensures |s.visited| == s.count
  {
    NoDupCardinality(s.indexed);
  }

  /** What `crawl` returns: at most `max_pages` URLs (none when the budget is
      not positive), all of them in scope, each indexed exactly once; and the
      loop stopped because the budget or the frontier ran out. */
  lemma {:induction false} CrawlResult(env: Env, seed: Url, maxPages: int)
    ensures var r := Run(env, seed, maxPages, Init(seed));
      && |r.visited| == r.count
      && r.count <= (if maxPages < 0 then 0 else maxPages)
      && (r.frontier == [] || r.count == (if maxPages < 0 then 0 else maxPages))
      && (forall u :: u in r.visited ==> InScope(seed, u))
      && NoDup(r.indexed) && Elems(r.indexed) == r.visited
      && NoDup(LogUrls(r.log))
  {
    InitInv(seed, maxPages);
    RunPreservesInv(env, seed, maxPages, Init(seed));
    VisitedSizeIsCount(seed, maxPages, Run(env, seed, maxPages, Init(seed)));
  }

  /** With the timestamp call of line 75 raising (as it does in the code as
      written), the seed is the only page ever counted: the crawl returns
      `{seed}` when the seed comes back with status 200 and the budget is
      positive, and the empty set otherwise; nothing is logged. */
  lemma {:induction false} TimestampRaisesStopsAtSeed(env: Env, seed: Url, maxPages: int)
    requires env.timestampRaises
    ensures var r := Run(env, seed, maxPages, Init(seed));
      && r.visited <= {seed}
      && (seed in r.visited <==> maxPages > 0 && Retrieved(env, seed))
      && (maxPages > 0 ==> r.frontier == [])
      && r.log == []
  {
    var s0 := Init(seed);
    if maxPages > 0 {
      var s1 := Step(env, seed, s0);
      assert s1.frontier == [];
      assert Run(env, seed, maxPages, s0) == Run(env, seed, maxPages, s1) == s1;
    }
  }

  /** With the stopword test against a set and a working clock, every counted
      page gets exactly one CSV row, and the rows follow the index order. */
  lemma {:induction false} CorrectedLogsEveryPage(env: Env, seed: Url, maxPages: int, s: State)
    requires env.stop.StopSet? && !env.timestampRaises
    ensures var r := Run(env, seed, maxPages, s);
      |r.log| - |s.log| == r.count - s.count
    // from a state whose log matches its index (as `Init` does), the logged
    // URLs are exactly the counted ones, in the order they were counted
    ensures var r := Run(env, seed, maxPages, s);
      LogUrls(s.log) == s.indexed ==> LogUrls(r.log) == r.indexed
    decreases maxPages - s.count, |s.frontier|
  {
    if s.count < maxPages && s.frontier != [] {
      var r := Step(env, seed, s);
      if r.count == s.count + 1 {
        var url := s.frontier[0];
        assert Record(env, url, env.fetch(url).text).Some?;
        assert LogUrls(r.log) == LogUrls(s.log) + [url];
      }
      CorrectedLogsEveryPage(env, seed, maxPages, r);
    }
  }

  /** When every page comes back with status 200 and nothing after line 68
      raises, each iteration counts a page and shrinks the frontier by at
      most its head; so a frontier as long as the remaining budget is enough
      to spend the whole budget. */
  lemma {:induction false} AllRetrievedSpendsBudget(env: Env, seed: Url, maxPages: int, s: State)
    requires env.stop.StopSet? && !env.timestampRaises
    requires forall u :: Retrieved(env, u)
    requires Inv(seed, maxPages, s) && s.count <= maxPages
    requires s.count + |s.frontier| >= maxPages
    ensures Run(env, seed, maxPages, s).count == maxPages
    decreases maxPages - s.count, |s.frontier|
  {
    if s.count < maxPages && s.frontier != [] {
      StepPreservesInv(env, seed, maxPages, s);
      var r := Step(env, seed, s);
      assert |r.frontier| >= |s.frontier| - 1;
      AllRetrievedSpendsBudget(env, seed, maxPages, r);
    }
  }

  /** The `for` loop of lines 82-87. */
  method EnqueueLinks(frontier0: seq<Url>, links: seq<Url>, seed: Url, visited: set<Url>) returns (frontier: seq<Url>)
    ensures frontier == Enqueue(frontier0, links, seed, visited)
  {
    frontier := frontier0;
    var i := 0;
    while i < |links|
      invariant 0 <= i <= |links|
      invariant frontier == Enqueue(frontier0, links[..i], seed, visited)
    {
      var newUrl := links[i];
      if InScope(seed, newUrl) && newUrl !in visited && newUrl !in frontier {
        frontier := frontier + [newUrl];
      }
      assert links[..i + 1][..i] == links[..i];
      i := i + 1;
    }
    assert links[..|links|] == links;
  }

  /** `crawl` (lines 30-90) on locals, with the index and the CSV log as
      ghost records of what was written. */
  method Crawl(env: Env, seed: Url, maxPages: int := 1000) returns (visited: set<Url>)
    ensures visited == Run(env, seed, maxPages, Init(seed)).visited
    ensures |visited| <= (if maxPages < 0 then 0 else maxPages)
    ensures forall u :: u in visited ==> InScope(seed, u)
  {
    var frontier := [seed];
    visited := {};
    var count: nat := 0;
    ghost var indexed: seq<Url> := [];
    ghost var log: seq<Row> := [];
    while count < maxPages && |frontier| > 0
      invariant Run(env, seed, maxPages, State(frontier, visited, count, indexed, log))
             == Run(env, seed, maxPages, Init(seed))
      decreases maxPages - count, |frontier|
    {
      ghost var before := State(frontier, visited, count, indexed, log);
      var url := frontier[0];
      frontier := frontier[1..];
      if url in visited {
        continue;
      }
      var page := env.fetch(url);
      if page.Response? && page.status == 200 {
        indexed := indexed + [url];
        visited := visited + {url};
        count := count + 1;
        var row := Record(env, url, page.text);
        if row.Some? {
          log := log + [row.value];
          frontier := EnqueueLinks(frontier, page.links, seed, visited);
        }
      }
      assert State(frontier, visited, count, indexed, log) == Step(env, seed, before);
    }
    CrawlResult(env, seed, maxPages);
  }
}
