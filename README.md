# Web crawler core, modelled in Dafny

This project models the crawl engine of a small Python web crawler (`webcrawler.py`). The function `crawl` runs a bounded breadth-first traversal from a seed URL. Its state is a FIFO frontier (`crawler_process`), a visited set and a success counter `count`, and it stops when `count` reaches `max_pages` or the frontier is empty. A page counts once its fetch returns status 200. It is then indexed, marked visited and counted. Its keywords go to a CSV row, and every link on it that starts with the seed URL and is neither visited nor already queued is appended to the frontier. Any exception skips the rest of the page's work. `get_keywords` keeps the alphanumeric, non-stopword tokens of the page text.

Files:

- `base.dfy` (module `Base`): `Option`, duplicate-freedom, `Elems`, and Python's `s[:n]` slice.
- `keywords.dfy` (module `KeywordFilter`): the filter of line 103, in two versions. One tests against the set built at line 99. The other is the code as written, which tests against the stopword corpus object.
- `frontier.dfy` (module `Frontier`): the scope test and the link loop of lines 82-87 (`Enqueue`). It also holds a reference definition, "filter, then keep first occurrences", and the lemma that the two agree.
- `crawl.dfy` (module `Crawler`): the following pieces.
  - An outcome oracle, `Env.fetch`.
  - The loop state `State`.
  - `Step`, one iteration of the loop.
  - `Run`, the loop run to completion.
  - The loop invariant and the lemmas about it.
  - The method `Crawl`. It is the loop itself, over local variables, proved equal to `Run`.
- `scenarios.dfy` (module `Scenarios`): concrete runs. They cover the keyword example, a two-page site crawled by the code as written and by the corrected code, a seed page whose links outnumber the budget, and the input that exposes the stopword defect.

The oracle replaces the network and HTML parsing. For each URL it says one of two things:

- the work of lines 56-66 raised (`Raised`);
- the response came back, with its status, its text and its links, already resolved to absolute URLs.

Two parameters decide whether the work after `count += 1` succeeds:

- `Env.stop` is the collection that line 103 tests membership in;
- `Env.timestampRaises` says whether the call at line 75 raises.

With these two parameters, one model states both the code as written and the behaviour where every step succeeds.

The model follows the code in three places where a reader might expect something else:

- There is no statistics collector (elapsed time and cumulative counts) in the code, so none is modelled.
- `get_keywords` has no early return for empty or blank text. It always filters the tokenizer's output. For empty text the tokenizer yields no tokens, so the result is the same.
- A non-200 status is treated like a failure: nothing is marked, counted or enqueued. The test is `status_code == 200` exactly, not "any 2xx".

## Model

| member | source | states |
|---|---|---|
| Base.Prefix | webcrawler.py:76-77 | `s[:n]` is the prefix of `s` of length `min(n, len(s))` |
| KeywordFilter.Keywords | webcrawler.py:99-103 | every output token comes from the input and is alphanumeric and not a stopword; every such input token appears in the output; the output is no longer than the input |
| KeywordFilter.KeywordsAppend | webcrawler.py:103 | filtering distributes over concatenation of the token stream, so document order is kept across any split |
| KeywordFilter.KeywordsSubsequence | webcrawler.py:103 | the output is an in-order subsequence of the tokens |
| KeywordFilter.KeywordsCounts | webcrawler.py:103 | duplicates are kept: a qualifying token occurs in the output as often as in the input, and any other token does not occur at all |
| KeywordFilter.KeywordsIdempotent | webcrawler.py:103 | applying the filter twice gives the same result as applying it once |
| KeywordFilter.FilterTokens | webcrawler.py:99-103 | the comprehension as written, parameterised by the collection it tests against; against the set of line 99 it never raises and equals `Keywords` |
| KeywordFilter.FilterTokensCorpusLoader | webcrawler.py:103 | tested against the corpus object, the comprehension raises exactly when some token is alphanumeric, and otherwise yields the empty list |
| Frontier.Enqueue | webcrawler.py:82-87 | the old frontier stays a prefix; each appended URL comes from the page's links, is in scope, is not visited and was not already queued; every in-scope unvisited link ends up in the frontier; a duplicate-free frontier stays duplicate-free |
| Frontier.EnqueueIsSelectedDedup | webcrawler.py:82-87 | the loop appends exactly the links that pass the guard of line 85 against the old frontier, first occurrences only, in page order |
| Crawler.Record | webcrawler.py:70-78 | a row is written exactly when keyword extraction and the timestamp call both succeed; the row's keywords are the first `min(20, n)` filter outputs and its content is the first `min(300, len(text))` characters |
| Crawler.Step | webcrawler.py:48-89 | the head is popped and the rest keeps its order, with new URLs only at the tail; a page is counted exactly when it is unvisited and has status 200; an uncounted page changes nothing else; a counted page is indexed and visited even if a later step raises; children are enqueued only if lines 70-78 all succeed |
| Crawler.Run | webcrawler.py:45-90 | the loop stops only when `count >= max_pages` or the frontier is empty, and `count` never decreases; it terminates on (`max_pages - count`, frontier length) |
| Crawler.InitInv | webcrawler.py:32-36 | the initial state satisfies the loop invariant |
| Crawler.StepPreservesInv | webcrawler.py:48-89 | one iteration keeps the invariant: no duplicate in the frontier, frontier and visited set disjoint, everything in scope, index entries equal to the visited set with one entry per count, `count <= max_pages`, no URL twice in the CSV log; the skip branch of lines 49-50 is never taken |
| Crawler.FailedPageMayBeRequeued | webcrawler.py:56-67 | a page that fails before line 67 stays unvisited, so a later link to it is admitted again |
| Crawler.RunPreservesInv | webcrawler.py:45-89 | the invariant holds when the loop exits |
| Crawler.VisitedSizeIsCount | webcrawler.py:49-68 | under the invariant, the visited set's size equals `count` |
| Crawler.CrawlResult | webcrawler.py:30-90 | the result has at most `max(0, max_pages)` URLs, exactly `count` of them, all starting with the seed, each indexed once and logged at most once; if the frontier is not empty at exit, the budget is spent |
| Crawler.TimestampRaisesStopsAtSeed | webcrawler.py:66-87 | when line 75 raises, the crawl returns `{seed}` if the budget is positive and the seed returns status 200, and the empty set otherwise; with a positive budget the frontier ends empty, and nothing is ever logged |
| Crawler.CorrectedLogsEveryPage | webcrawler.py:67-78 | when the stopword test is against a set and the clock works, the run adds exactly one CSV row per counted page; from a state whose log matches its index (the initial state does), the logged URLs are exactly the indexed ones, in counting order |
| Crawler.AllRetrievedSpendsBudget | webcrawler.py:45-87 | if every page succeeds, a frontier at least as long as the remaining budget is enough to reach `count == max_pages` |
| Crawler.EnqueueLinks | webcrawler.py:82-87 | the link loop computes `Enqueue` |
| Crawler.Crawl | webcrawler.py:30-90 | with `max_pages` defaulting to 1000, the loop returns `Run`'s visited set, which has at most `max(0, max_pages)` URLs, all starting with the seed |
| Scenarios.KeywordsExample | webcrawler.py:103 | the tokens of "Data Structures and Algorithms 101", with "and" a stopword, give `data, structures, algorithms, 101` |
| Scenarios.StopwordTestRaises | webcrawler.py:103 | for the tokens `data, and`, the code as written raises, while the set test yields `[data]` |
| Scenarios.ScopeIsStringPrefix | webcrawler.py:85 | scope is a literal prefix: seed `https://example.test` admits `https://example.test2/` |
| Scenarios.TwoPageSiteCorrected | webcrawler.py:30-90 | the seed links to an in-scope page and to another host; with every step succeeding, the crawl visits, indexes and logs exactly the seed and the in-scope page |
| Scenarios.TwoPageSiteAsWritten | webcrawler.py:75 | the same site crawled by the code as written returns only the seed and writes no CSV row |
| Scenarios.SeedFanOutSpendsBudget | webcrawler.py:45-87 | the seed links to more distinct in-scope pages than the budget allows, and every step succeeds; then exactly `max_pages` pages are counted, visited and logged |

## Left out

- The HTTP request with its 10-second timeout (line 56), BeautifulSoup parsing, `get_text`, `find_all` and `urljoin` (lines 62-65, 82-83) are network I/O and foreign library calls. They are replaced by the oracle `Env.fetch`, which returns the page's absolute links in page order. A failure inside `find_all` or `urljoin` partway through the link loop is not modelled: the oracle's links either all reach the guard or the page raised earlier.
- The NLTK downloads, `word_tokenize`, `.lower()` and Unicode `isalnum` (lines 95-100) are external linguistic resources. They are the parameters `tokenize` and `isAlnum`, and the stopword set is a parameter as well.
- The Whoosh schema and index creation (lines 19-27) are on-disk I/O. `add_document` (line 66) is recorded only as the sequence of URLs passed to it, `State.indexed`.
- Opening and writing the CSV file (lines 39-41, 73) is file I/O. Rows are recorded as `Row` values in `State.log`. Joining the keywords with `", "` and the timestamp value are not modelled. Only whether the timestamp call raises is modelled.
- `Env.fetch` gives one fixed outcome per URL for the whole run. A URL that failed before line 67 and is queued again (see `FailedPageMayBeRequeued`) fails the same way when it is retried, whereas the real network may succeed on the second attempt.
- Failures inside `get_keywords` other than the stopword test are not modelled. `tokenize` is total and the set-based stopword test never raises, so `nltk.download`, `stopwords.words` or `word_tokenize` raising (for example `LookupError` for a missing resource, lines 95-100) is not captured. `CorrectedLogsEveryPage`, `AllRetrievedSpendsBudget` and `SeedFanOutSpendsBudget` describe runs in which those calls succeed.
- Console output (lines 86, 89) and the `__main__` entry point (lines 105-111) are left out.
- Crawler.Crawl: keeps the index and the CSV log as ghost variables, because the source writes them to external collaborators and only returns the visited set.

## Findings

| source | as written | input that shows it | evidently intended | confidence | as-written member | corrected member |
|---|---|---|---|---|---|---|
| webcrawler.py:75 | `datetime.now()` is called on the module `datetime` imported at line 2, which has no `now`, so the call always raises `AttributeError` after the page has been counted | seed `https://example.test/` whose page links to `https://example.test/a`: the crawl returns only the seed and writes no CSV row | `datetime.datetime.now()`: the row is written and the page's links are enqueued | high, not executed | Scenarios.TwoPageSiteAsWritten | Scenarios.TwoPageSiteCorrected |
| webcrawler.py:103 | `word not in stopwords` tests membership in the corpus object imported at line 9, which supports no membership test, so the first alphanumeric token raises `TypeError`; the set `stop` built at line 99 is never used | tokens `data, and`: the code raises where the filter should yield `[data]` | `word not in stop` | medium, not executed | Scenarios.StopwordTestRaises | KeywordFilter.Keywords |
