/** Keyword extraction (`get_keywords`, webcrawler.py:93-103).

    The tokenizer (`word_tokenize(text.lower())`), Unicode `str.isalnum` and
    the English stopword list are external linguistic resources: the model
    takes the token sequence, the alphanumeric test and the stopword
    collection as parameters and keeps only the filtering comprehension of
    line 103. */
module KeywordFilter {
  import opened Base

  /** A token survives the filter: alphanumeric and not a stopword. */
  predicate Qualifies(w: string, isAlnum: string -> bool, stop: set<string>) {
    isAlnum(w) && w !in stop
  }

  /** The filter the comprehension at line 103 is meant to compute, testing
      membership in the stopword set built at line 99: the qualifying tokens,
      in token order, duplicates kept, nothing ranked. */
  function Keywords(tokens: seq<string>, isAlnum: string -> bool, stop: set<string>): (r: seq<string>)
    ensures |r| <= |tokens|
    ensures forall w :: w in r ==> w in tokens && Qualifies(w, isAlnum, stop)
    ensures forall w :: w in tokens && Qualifies(w, isAlnum, stop) ==> w in r
  {
    if tokens == [] then []
    else if Qualifies(tokens[0], isAlnum, stop) then [tokens[0]] + Keywords(tokens[1..], isAlnum, stop)
    else Keywords(tokens[1..], isAlnum, stop)
  }

  /** `a` is obtained from `b` by deleting items, keeping the rest in order. */
  predicate Subsequence<T(==)>(a: seq<T>, b: seq<T>)
    decreases |b|
  {
    if a == [] then true
    else if b == [] then false
    else if a[0] == b[0] then Subsequence(a[1..], b[1..])
    else Subsequence(a, b[1..])
  }

  /** Filtering distributes over concatenation: the output keeps document
      order across any split of the token stream. */
  lemma {:induction false} KeywordsAppend(a: seq<string>, b: seq<string>, isAlnum: string -> bool, stop: set<string>)
    ensures Keywords(a + b, isAlnum, stop) == Keywords(a, isAlnum, stop) + Keywords(b, isAlnum, stop)
  {
    if a != [] {
      assert (a + b)[0] == a[0] && (a + b)[1..] == a[1..] + b;
      KeywordsAppend(a[1..], b, isAlnum, stop);
    } else {
      assert a + b == b;
    }
  }

  /** The output is an in-order subsequence of the tokens. */
  lemma {:induction false} KeywordsSubsequence(tokens: seq<string>, isAlnum: string -> bool, stop: set<string>)
    ensures Subsequence(Keywords(tokens, isAlnum, stop), tokens)
  {
    if tokens != [] {
      KeywordsSubsequence(tokens[1..], isAlnum, stop);
      var r := Keywords(tokens, isAlnum, stop);
      if Qualifies(tokens[0], isAlnum, stop) {
        assert r[0] == tokens[0] && r[1..] == Keywords(tokens[1..], isAlnum, stop);
      } else {
        assert r == Keywords(tokens[1..], isAlnum, stop);
        SubsequenceSkip(r, tokens);
      }
    }
  }

  lemma {:induction false} SubsequenceSkip<T>(a: seq<T>, b: seq<T>)
    requires b != [] && Subsequence(a, b[1..])
    ensures Subsequence(a, b)
    decreases |b|, |a|
  {
    if a != [] && a[0] == b[0] {
      SubsequenceTail(a, b[1..]);
    }
  }

  lemma {:induction false} SubsequenceTail<T>(a: seq<T>, b: seq<T>)
    requires a != [] && Subsequence(a, b)
    ensures Subsequence(a[1..], b)
    decreases |b|, |a|
  {
    if a[0] == b[0] {
      if a[1..] != [] {
        SubsequenceTail(a[1..], b[1..]);
        SubsequenceSkip(a[1..], b);
      }
    } else {
      SubsequenceTail(a, b[1..]);
      if a[1..] != [] {
        SubsequenceSkip(a[1..], b);
      }
    }
  }

  /** Duplicates are kept: each qualifying token occurs in the output exactly
      as often as in the input, every other token not at all. */
  lemma {:induction false} KeywordsCounts(tokens: seq<string>, isAlnum: string -> bool, stop: set<string>, w: string)
    ensures multiset(Keywords(tokens, isAlnum, stop))[w]
         == if Qualifies(w, isAlnum, stop) then multiset(tokens)[w] else 0
  {
    if tokens != [] {
      KeywordsCounts(tokens[1..], isAlnum, stop, w);
      assert tokens == [tokens[0]] + tokens[1..];
    }
  }

  /** Filtering twice gives the same result as filtering once. */
  lemma {:induction false} KeywordsIdempotent(tokens: seq<string>, isAlnum: string -> bool, stop: set<string>)
    ensures Keywords(Keywords(tokens, isAlnum, stop), isAlnum, stop) == Keywords(tokens, isAlnum, stop)
  {
    if tokens != [] {
      var head := if Qualifies(tokens[0], isAlnum, stop) then [tokens[0]] else [];
      var tail := Keywords(tokens[1..], isAlnum, stop);
      KeywordsIdempotent(tokens[1..], isAlnum, stop);
      KeywordsAppend(head, tail, isAlnum, stop);
      if head != [] {
        assert Keywords(head, isAlnum, stop) == head by {
          assert head[1..] == [];
        }
      }
    }
  }

  /** The collection that the membership test at line 103 is applied to:
      the set of line 99, or the corpus reader object imported at line 9,
      which supports no membership test, so `word not in stopwords` raises. */
  datatype StopCollection = StopSet(words: set<string>) | CorpusLoader

  /** The comprehension of line 103 as written, with the collection it tests
      against as a parameter; `None` when the comprehension raises. The
      membership test runs only for alphanumeric tokens (`and` short-circuits). */
  function FilterTokens(tokens: seq<string>, isAlnum: string -> bool, stop: StopCollection): (r: Option<seq<string>>)
    ensures stop.StopSet? ==> r == Some(Keywords(tokens, isAlnum, stop.words))
  {
    if tokens == [] then Some([])
    else if !isAlnum(tokens[0]) then FilterTokens(tokens[1..], isAlnum, stop)
    else match stop
      case CorpusLoader => None
      case StopSet(words) =>
        var rest := FilterTokens(tokens[1..], isAlnum, stop);
        if tokens[0] in words then rest
        else if rest.Some? then Some([tokens[0]] + rest.value) else None
  }

  /** Against the corpus reader, the filter as written raises exactly when
      some token is alphanumeric, and otherwise yields nothing. */
  lemma {:induction false} FilterTokensCorpusLoader(tokens: seq<string>, isAlnum: string -> bool)
    ensures FilterTokens(tokens, isAlnum, CorpusLoader)
         == if exists w :: w in tokens && isAlnum(w) then None else Some([])
  {
    if tokens != [] {
      FilterTokensCorpusLoader(tokens[1..], isAlnum);
      assert forall w :: w in tokens <==> w == tokens[0] || w in tokens[1..];
    }
  }
}
