/** The frontier's insertion discipline (webcrawler.py:82-87): every link of a
    retrieved page, in page order, is appended at the tail of the frontier
    when it passes the guard of line 85. */
module Frontier {
  import opened Base

  /** A URL is an opaque string; links arrive already resolved to absolute
      form. */
  type Url = string

  /** The scope filter of line 85: `new_url.startswith(seed_url)`, a literal
      string prefix with no host or path-boundary check. */
  predicate InScope(seed: Url, url: Url) {
    seed <= url
  }

  /** The whole guard of line 85, against the frontier as it stands when the
      link is examined. */
  predicate Admits(seed: Url, visited: set<Url>, frontier: seq<Url>, url: Url) {
    InScope(seed, url) && url !in visited && url !in frontier
  }

  /** The frontier after the `for` loop of lines 82-87 has examined `links`
      in order: each admitted link is appended, and later links are checked
      against the frontier that already holds the earlier ones. */
  function Enqueue(frontier: seq<Url>, links: seq<Url>, seed: Url, visited: set<Url>): (r: seq<Url>)
    ensures frontier <= r
    ensures forall i :: |frontier| <= i < |r| ==>
              r[i] in links && InScope(seed, r[i]) && r[i] !in visited && r[i] !in frontier
    ensures forall u :: u in links && InScope(seed, u) && u !in visited ==> u in r
    ensures NoDup(frontier) ==> NoDup(r)
    decreases |links|
  {
    if links == [] then frontier
    else
      var f := Enqueue(frontier, links[..|links| - 1], seed, visited);
      var url := links[|links| - 1];
      if Admits(seed, visited, f, url) then f + [url] else f
  }

  /** Reference definition, part one: the links that pass the guard against
      the frontier as it was before the page was examined, in page order. */
  function Selected(links: seq<Url>, seed: Url, visited: set<Url>, frontier: seq<Url>): seq<Url>
    decreases |links|
  {
    if links == [] then []
    else
      var rest := Selected(links[..|links| - 1], seed, visited, frontier);
      if Admits(seed, visited, frontier, links[|links| - 1]) then rest + [links[|links| - 1]] else rest
  }

  /** Reference definition, part two: keep the first occurrence of every
      item, drop the later ones. */
  function Dedup<T(==)>(s: seq<T>): seq<T>
    decreases |s|
  {
    if s == [] then []
    else if s[|s| - 1] in s[..|s| - 1] then Dedup(s[..|s| - 1])
    else Dedup(s[..|s| - 1]) + [s[|s| - 1]]
  }

  /** `Dedup` loses no item and repeats none. */
  lemma {:induction false} DedupElems<T>(s: seq<T>)
    ensures Elems(Dedup(s)) == Elems(s)
    ensures NoDup(Dedup(s))
    decreases |s|
  {
    if s != [] {
      var init := s[..|s| - 1];
      DedupElems(init);
      assert s == init + [s[|s| - 1]];
      assert Elems(s) == Elems(init) + {s[|s| - 1]};
    }
  }

  /** The loop of lines 82-87 appends exactly the links that pass the guard
      of line 85 against the old frontier, first occurrences only, in the
      order they appear on the page: the FIFO tail of the frontier. */
  lemma {:induction false} EnqueueIsSelectedDedup(frontier: seq<Url>, links: seq<Url>, seed: Url, visited: set<Url>)
    ensures Enqueue(frontier, links, seed, visited) == frontier + Dedup(Selected(links, seed, visited, frontier))
    decreases |links|
  {
    if links == [] {
      assert frontier + [] == frontier;
    } else {
      var init := links[..|links| - 1];
      var url := links[|links| - 1];
      var sel := Selected(init, seed, visited, frontier);
      EnqueueIsSelectedDedup(frontier, init, seed, visited);
      DedupElems(sel);
      if Admits(seed, visited, frontier, url) {
        var s2 := sel + [url];
        assert s2[..|s2| - 1] == sel && s2[|s2| - 1] == url;
        assert url in Dedup(sel) <==> url in sel by {
          assert url in Elems(Dedup(sel)) <==> url in Elems(sel);
        }
      }
    }
  }
}
