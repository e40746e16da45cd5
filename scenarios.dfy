/** Concrete runs of the model: the keyword example, the end-to-end crawl of
    a two-page site, the fan-out budget case, and the inputs that show the
    two defects of the code as written (the stopword test of line 103 and
    the timestamp call of line 75). */
module Scenarios {
  import opened Base
  import opened KeywordFilter
  import opened Frontier
  import opened Crawler

  /** "Data Structures and Algorithms 101", lower-cased and tokenized, with
      "and" a stopword: the stopword goes, the rest stays in document order. */
  lemma KeywordsExample(isAlnum: string -> bool, stop: set<string>)
    requires isAlnum("data") && isAlnum("structures") && isAlnum("and")
    requires isAlnum("algorithms") && isAlnum("101")
    requires "and" in stop
    requires "data" !in stop && "structures" !in stop && "algorithms" !in stop && "101" !in stop
    ensures Keywords(["data", "structures", "and", "algorithms", "101"], isAlnum, stop)
         == ["data", "structures", "algorithms", "101"]
  {
    var k4 := Keywords(["101"], isAlnum, stop);
    assert k4 == ["101"] by {
      assert ["101"][1..] == [];
    }
    var k3 := Keywords(["algorithms", "101"], isAlnum, stop);
    assert k3 == ["algorithms", "101"] by {
      assert ["algorithms", "101"][1..] == ["101"];
    }
    var k2 := Keywords(["and", "algorithms", "101"], isAlnum, stop);
    assert k2 == ["algorithms", "101"] by {
      assert ["and", "algorithms", "101"][1..] == ["algorithms", "101"];
    }
    var k1 := Keywords(["structures", "and", "algorithms", "101"], isAlnum, stop);
    assert k1 == ["structures", "algorithms", "101"] by {
      assert ["structures", "and", "algorithms", "101"][1..] == ["and", "algorithms", "101"];
    }
    assert ["data", "structures", "and", "algorithms", "101"][1..] == ["structures", "and", "algorithms", "101"];
  }

  /** Line 103 as written: on the same tokens, the test against the corpus
      reader raises at "data", where the test against the set of line 99
      keeps "data" and drops "and". */
  lemma StopwordTestRaises(isAlnum: string -> bool)
    requires isAlnum("data") && isAlnum("and")
    ensures FilterTokens(["data", "and"], isAlnum, CorpusLoader) == None
    ensures FilterTokens(["data", "and"], isAlnum, StopSet({"and"})) == Some(["data"])
  {
    assert ["data", "and"][1..] == ["and"];
    assert Keywords(["and"], isAlnum, {"and"}) == [] by {
      assert ["and"][1..] == [];
    }
    assert ["data"] + [] == ["data"];
  }

  /** The scope test is a plain string prefix: with a seed written without
      its trailing slash, another host is admitted. */
  lemma ScopeIsStringPrefix()
    ensures InScope("https://example.test", "https://example.test2/")
    ensures !InScope("https://example.test/", "https://example.test2/")
  {
    assert "https://example.test2/"[..|"https://example.test"|] == "https://example.test";
    assert "https://example.test/"[20] != "https://example.test2/"[20];
  }

  const Seed: Url := "https://example.test/"
  const PageA: Url := "https://example.test/a"
  const Other: Url := "https://other.test/"

  /** The two-page site: the seed links to an in-scope page and to another
      host; every page comes back with status 200. */
  function Site(u: Url): Page {
    if u == Seed then Response(200, "", [PageA, Other]) else Response(200, "", [])
  }

  function SiteEnv(timestampRaises: bool): Env {
    Env(Site, (t: string) => [], (w: string) => true, StopSet({}), timestampRaises)
  }

  lemma SiteFacts()
    ensures !InScope(Seed, Other) && InScope(Seed, PageA) && PageA != Seed
  {
    assert Seed[8] != Other[8];
    assert PageA[..|Seed|] == Seed;
    assert |PageA| != |Seed|;
  }

  /** The seed is counted and logged, and only its in-scope link is queued. */
  lemma SiteFirstStep()
    ensures Step(SiteEnv(false), Seed, Init(Seed))
         == State([PageA], {Seed}, 1, [Seed], [Row(Seed, [], "")])
  {
    var env := SiteEnv(false);
    SiteFacts();
    assert Record(env, Seed, "") == Some(Row(Seed, [], ""));
    assert [Seed][1..] == [];
    assert [PageA, Other][..1] == [PageA] && [PageA][..0] == [];
    assert Enqueue([], [PageA], Seed, {Seed}) == [PageA];
    assert Enqueue([], [PageA, Other], Seed, {Seed}) == [PageA];
    var init := Init(Seed);
    assert init.visited + {Seed} == {Seed};
    assert init.indexed + [Seed] == [Seed];
    assert init.log + [Row(Seed, [], "")] == [Row(Seed, [], "")];
  }

  /** The in-scope page is counted and logged; it has no links. */
  lemma SiteSecondStep()
    ensures Step(SiteEnv(false), Seed, State([PageA], {Seed}, 1, [Seed], [Row(Seed, [], "")]))
         == State([], {Seed, PageA}, 2, [Seed, PageA], [Row(Seed, [], ""), Row(PageA, [], "")])
  {
    var env := SiteEnv(false);
    SiteFacts();
    assert Record(env, PageA, "") == Some(Row(PageA, [], ""));
    assert [PageA][1..] == [];
  }

  /** With every step after line 68 succeeding, the crawl visits exactly the
      seed and the in-scope page, logs both, and never touches the other
      host. */
  lemma TwoPageSiteCorrected()
    ensures var r := Run(SiteEnv(false), Seed, 10, Init(Seed));
      && r.visited == {Seed, PageA}
      && r.indexed == [Seed, PageA]
      && LogUrls(r.log) == [Seed, PageA]
      && Other !in r.visited
  {
    var env := SiteEnv(false);
    var s1 := State([PageA], {Seed}, 1, [Seed], [Row(Seed, [], "")]);
    var s2 := State([], {Seed, PageA}, 2, [Seed, PageA], [Row(Seed, [], ""), Row(PageA, [], "")]);
    SiteFirstStep();
    SiteSecondStep();
    SiteFacts();
    assert Run(env, Seed, 10, s2) == s2;
    assert Run(env, Seed, 10, s1) == s2;
    assert Run(env, Seed, 10, Init(Seed)) == s2;
    assert LogUrls(s2.log) == [Seed, PageA];
  }

  /** The same site crawled by the code as written: the timestamp call of
      line 75 raises on the seed, so its links are never enqueued and the
      crawl returns only the seed and writes no CSV row. */
  lemma TwoPageSiteAsWritten()
    ensures Run(SiteEnv(true), Seed, 10, Init(Seed)).visited == {Seed}
    ensures Run(SiteEnv(true), Seed, 10, Init(Seed)).log == []
  {
    TimestampRaisesStopsAtSeed(SiteEnv(true), Seed, 10);
  }

  /** The budget case: a seed page whose distinct in-scope links outnumber
      the budget, every page retrieved and every step after line 68
      succeeding; exactly `maxPages` pages are counted and logged. */
  lemma {:induction false} SeedFanOutSpendsBudget(env: Env, seed: Url, maxPages: int)
    requires env.stop.StopSet? && !env.timestampRaises
    requires forall u :: Retrieved(env, u)
    requires env.fetch(seed).Response?
    requires NoDup(env.fetch(seed).links) && seed !in env.fetch(seed).links
    requires forall u :: u in env.fetch(seed).links ==> InScope(seed, u)
    requires 1 <= maxPages <= |env.fetch(seed).links| + 1
    ensures var r := Run(env, seed, maxPages, Init(seed));
      r.count == maxPages && |r.visited| == maxPages && |r.log| == maxPages
  {
    var s0 := Init(seed);
    InitInv(seed, maxPages);
    StepPreservesInv(env, seed, maxPages, s0);
    var s1 := Step(env, seed, s0);
    var links := env.fetch(seed).links;
    assert Retrieved(env, seed);
    assert s0.frontier[1..] == [];
    assert Record(env, seed, env.fetch(seed).text).Some?;
    assert s1.count == 1 && s1.visited == {seed};
    assert s1.frontier == Enqueue([], links, seed, {seed});
    assert Elems(s1.frontier) == Elems(links);
    NoDupCardinality(s1.frontier);
    NoDupCardinality(links);
    assert Run(env, seed, maxPages, s0) == Run(env, seed, maxPages, s1);
    AllRetrievedSpendsBudget(env, seed, maxPages, s1);
    CorrectedLogsEveryPage(env, seed, maxPages, s0);
    CrawlResult(env, seed, maxPages);
  }
}
