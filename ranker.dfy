/** The ranker used by the agent pipeline (`papers_digest/ranker.py`):
    token-overlap relevance normalised by the square root of the content
    length, a highlight sentence per paper, and a stable descending sort
    truncated to a limit. */
module Ranker {
  import opened Wrappers
  import Text
  import Numerics
  import Sorting
  import opened Models

  /** `_tokens`: the maximal `[A-Za-z0-9]+` runs of `text`, left to right,
      lowercased. */
  function Tokens(text: string): (r: seq<string>)
    ensures forall k :: 0 <= k < |r| ==> |r[k]| > 0
    ensures forall k, i :: 0 <= k < |r| && 0 <= i < |r[k]| ==> Text.IsLowerAlnum(r[k][i])
  {
    var runs := Text.Runs(text, Text.IsAsciiAlnum);
    seq(|runs|, k requires 0 <= k < |runs| => Text.Lower(runs[k]))
  }

  /** Stripping whitespace never changes the tokens of a text. */
  lemma TokensStrip(text: string)
    ensures Tokens(Text.Strip(text)) == Tokens(text)
  {
    Text.RunsStrip(text, Text.IsAsciiAlnum);
  }

  /** `sum(content_tf[token] for token in query_tf)`: every DISTINCT query
      token adds its number of occurrences among the content tokens. */
  function Overlap(query: seq<string>, content: seq<string>): nat {
    if query == [] then 0
    else
      var init, last := query[..|query| - 1], query[|query| - 1];
      Overlap(init, content) + (if last in init then 0 else Text.Occurrences(last, content))
  }

  /** Number of content tokens that are also query tokens. */
  function Hits(content: seq<string>, query: seq<string>): nat {
    if content == [] then 0
    else Hits(content[..|content| - 1], query) + (if content[|content| - 1] in query then 1 else 0)
  }

  lemma {:induction false} HitsSnoc(content: seq<string>, query: seq<string>, x: string)
    ensures Hits(content, query + [x]) == Hits(content, query) + (if x in query then 0 else Text.Occurrences(x, content))
  {
    if content != [] {
      var init, last := content[..|content| - 1], content[|content| - 1];
      HitsSnoc(init, query, x);
      assert content == init + [last];
      Text.OccurrencesAppend(x, init, [last]);
      assert [last][1..] == [];
    }
  }

  /** The overlap counts the content tokens that occur in the query. */
  lemma {:induction false} OverlapIsHits(query: seq<string>, content: seq<string>)
    ensures Overlap(query, content) == Hits(content, query)
  {
    if query == [] {
      HitsNone(content, query);
    } else {
      var init, last := query[..|query| - 1], query[|query| - 1];
      OverlapIsHits(init, content);
      HitsSnoc(content, init, last);
      assert query == init + [last];
    }
  }

  lemma {:induction false} HitsNone(content: seq<string>, query: seq<string>)
    requires forall i :: 0 <= i < |content| ==> content[i] !in query
    ensures Hits(content, query) == 0
  {
    if content != [] { HitsNone(content[..|content| - 1], query); }
  }

  /** Hits are at most the number of content tokens, and positive exactly when
      some content token is a query token. */
  lemma {:induction false} HitsBounds(content: seq<string>, query: seq<string>)
    ensures Hits(content, query) <= |content|
    ensures Hits(content, query) > 0 <==> exists i :: 0 <= i < |content| && content[i] in query
  {
    if content != [] {
      var init := content[..|content| - 1];
      HitsBounds(init, query);
      if exists i :: 0 <= i < |init| && init[i] in query {
        var i :| 0 <= i < |init| && init[i] in query;
        assert content[i] == init[i];
      }
      if Hits(content, query) > 0 && Hits(init, query) > 0 {
        var i :| 0 <= i < |init| && init[i] in query;
        assert content[i] == init[i];
      }
    }
  }

  /** Hits depend only on which tokens the query contains, not on how often. */
  lemma {:induction false} HitsSameTokens(content: seq<string>, q1: seq<string>, q2: seq<string>)
    requires forall t :: t in q1 <==> t in q2
    ensures Hits(content, q1) == Hits(content, q2)
  {
    if content != [] { HitsSameTokens(content[..|content| - 1], q1, q2); }
  }

  /** `paper.abstract or ""`. */
  function AbstractOrEmpty(paper: Paper): string {
    paper.abstractText.GetOr("")
  }

  /** `" ".join([paper.title, paper.abstract or ""]).strip()`. */
  function Content(paper: Paper): string {
    Text.Strip(paper.title + " " + AbstractOrEmpty(paper))
  }

  /** `score_paper`: the overlap divided by the square root of the number of
      content tokens, or 0 when the query or the content has no token. */
  function ScorePaper(query: string, paper: Paper, sqrt: Numerics.SqrtFn): (r: real)
    ensures 0.0 <= r
    ensures Tokens(query) == [] ==> r == 0.0
    ensures Tokens(Content(paper)) == [] ==> r == 0.0
    ensures 0.0 < r <==> exists i :: 0 <= i < |Tokens(Content(paper))| && Tokens(Content(paper))[i] in Tokens(query)
  {
    var q := Tokens(query);
    var c := Tokens(Content(paper));
    if q == [] then 0.0
    else if c == [] then 0.0
    else
      OverlapIsHits(q, c);
      HitsBounds(c, q);
      var norm := sqrt(|c| as real);
      QuotientSign(Overlap(q, c) as real, norm);
      Overlap(q, c) as real / norm
  }

  lemma QuotientSign(a: real, b: real)
    requires 0.0 <= a && 0.0 < b
    ensures 0.0 <= a / b
    ensures 0.0 < a / b <==> 0.0 < a
  {
  }

  /** The overlap never exceeds the number of content tokens. */
  lemma OverlapBound(query: string, paper: Paper)
    ensures Overlap(Tokens(query), Tokens(Content(paper))) <= |Tokens(Content(paper))|
  {
    OverlapIsHits(Tokens(query), Tokens(Content(paper)));
    HitsBounds(Tokens(Content(paper)), Tokens(query));
  }

  /** Two queries with the same tokens score every paper alike: repeating a
      query word changes nothing. */
  lemma ScoreSameTokens(q1: string, q2: string, paper: Paper, sqrt: Numerics.SqrtFn)
    requires forall t :: t in Tokens(q1) <==> t in Tokens(q2)
    ensures ScorePaper(q1, paper, sqrt) == ScorePaper(q2, paper, sqrt)
  {
    var c := Tokens(Content(paper));
    OverlapIsHits(Tokens(q1), c);
    OverlapIsHits(Tokens(q2), c);
    HitsSameTokens(c, Tokens(q1), Tokens(q2));
  }

  // ---------------------------------------------------------------------
  // build_highlight

  /** `paper.abstract or paper.title`. */
  function HighlightSource(paper: Paper): string {
    if paper.abstractText.Some? && paper.abstractText.value != "" then paper.abstractText.value
    else paper.title
  }

  predicate SharesToken(a: seq<string>, b: seq<string>) {
    exists i :: 0 <= i < |a| && a[i] in b
  }

  /** Index of the first sentence sharing a token with the query, or the
      number of sentences when none does. */
  function FirstMatch(sentences: seq<string>, query: seq<string>): (i: nat)
    ensures i <= |sentences|
    ensures i < |sentences| ==> SharesToken(Tokens(sentences[i]), query)
    ensures forall k :: 0 <= k < i ==> !SharesToken(Tokens(sentences[k]), query)
  {
    if sentences == [] then 0
    else if SharesToken(Tokens(sentences[0]), query) then 0
    else 1 + FirstMatch(sentences[1..], query)
  }

  /** `build_highlight`: the first sentence of the source text that shares a
      token with the query, stripped; otherwise the stripped first sentence
      when it is not empty, otherwise the title. */
  function BuildHighlight(query: string, paper: Paper): string {
    var sentences := Text.SplitSentences(HighlightSource(paper));
    var i := FirstMatch(sentences, Tokens(query));
    if i < |sentences| then Text.Strip(sentences[i])
    else if sentences[0] != "" then Text.Strip(sentences[0])
    else paper.title
  }

  function Sentences(paper: Paper): seq<string> {
    Text.SplitSentences(HighlightSource(paper))
  }

  /** When some sentence matches, the highlight is the first matching
      sentence, stripped, and it shares a token with the query. */
  lemma HighlightMatches(query: string, paper: Paper, k: nat)
    requires k < |Sentences(paper)| && SharesToken(Tokens(Sentences(paper)[k]), Tokens(query))
    ensures SharesToken(Tokens(BuildHighlight(query, paper)), Tokens(query))
    ensures exists i :: (0 <= i <= k && BuildHighlight(query, paper) == Text.Strip(Sentences(paper)[i])
                         && SharesToken(Tokens(Sentences(paper)[i]), Tokens(query))
                         && forall j :: 0 <= j < i ==> !SharesToken(Tokens(Sentences(paper)[j]), Tokens(query)))
  {
    var i := FirstMatch(Sentences(paper), Tokens(query));
    TokensStrip(Sentences(paper)[i]);
  }

  /** With no matching sentence the highlight is the stripped first sentence
      when that sentence is not empty, and the title otherwise. */
  lemma HighlightFallback(query: string, paper: Paper)
    requires forall k :: 0 <= k < |Sentences(paper)| ==> !SharesToken(Tokens(Sentences(paper)[k]), Tokens(query))
    ensures BuildHighlight(query, paper) ==
      if Sentences(paper)[0] != "" then Text.Strip(Sentences(paper)[0]) else paper.title
  {
    var i := FirstMatch(Sentences(paper), Tokens(query));
    assert i == |Sentences(paper)|;
  }

  /** A query without tokens never matches a sentence. */
  lemma EmptyQueryNeverMatches(query: string, sentence: string)
    requires Tokens(query) == []
    ensures !SharesToken(Tokens(sentence), Tokens(query))
  {
  }

  // ---------------------------------------------------------------------
  // rank_papers

  function ScoreOf(item: DigestItem): real { item.score }

  /** The `scored` list: each paper with its own score and highlight. */
  function ScoredItems(query: string, papers: seq<Paper>, sqrt: Numerics.SqrtFn): (r: seq<DigestItem>)
    ensures |r| == |papers|
  {
    seq(|papers|, i requires 0 <= i < |papers| =>
      DigestItem(papers[i], ScorePaper(query, papers[i], sqrt), BuildHighlight(query, papers[i])))
  }

  /** `item` is one of `papers` with its own score and highlight. */
  predicate IsScoredPaper(item: DigestItem, query: string, papers: seq<Paper>, sqrt: Numerics.SqrtFn) {
    exists i :: 0 <= i < |papers| &&
      item == DigestItem(papers[i], ScorePaper(query, papers[i], sqrt), BuildHighlight(query, papers[i]))
  }

  /** The result of `rank_papers`: the first `limit` items of the scored
      list sorted by score, highest first, equal scores in input order. */
  function Ranked(query: string, papers: seq<Paper>, limit: int, sqrt: Numerics.SqrtFn): seq<DigestItem> {
    Sorting.PyPrefix(Sorting.SortDesc(ScoredItems(query, papers, sqrt), ScoreOf), limit)
  }

  /** `rank_papers`: scores every paper, sorts the list in place by score and
      keeps the first `limit` items. */
  method RankPapers(query: string, papers: seq<Paper>, limit: int, sqrt: Numerics.SqrtFn)
    returns (ranked: seq<DigestItem>)
    ensures ranked == Ranked(query, papers, limit, sqrt)
  {
    var items := ScoredItems(query, papers, sqrt);
    var scored := new DigestItem[|items|](i requires 0 <= i < |items| => items[i]);
    assert scored[..] == items;
    Sorting.SortInPlace(scored, ScoreOf);
    ranked := Sorting.PyPrefix(scored[..], limit);
  }

  /** What the ranking guarantees: `min(limit, n)` items for a non-negative
      limit, scores never increasing, each item a paper of the input with its
      own score and highlight, and equal scores in input order. */
  lemma RankedProperties(query: string, papers: seq<Paper>, limit: int, sqrt: Numerics.SqrtFn)
    ensures 0 <= limit ==> |Ranked(query, papers, limit, sqrt)| == if limit < |papers| then limit else |papers|
    ensures Sorting.SortedDesc(Ranked(query, papers, limit, sqrt), ScoreOf)
    ensures forall k :: 0 <= k < |Ranked(query, papers, limit, sqrt)| ==>
      IsScoredPaper(Ranked(query, papers, limit, sqrt)[k], query, papers, sqrt)
    ensures forall v :: Sorting.IsPrefix(Sorting.WithKey(Ranked(query, papers, limit, sqrt), ScoreOf, v),
                                         Sorting.WithKey(ScoredItems(query, papers, sqrt), ScoreOf, v))
  {
    var items := ScoredItems(query, papers, sqrt);
    var sorted := Sorting.SortDesc(items, ScoreOf);
    var r := Ranked(query, papers, limit, sqrt);
    Sorting.SortDescSorted(items, ScoreOf);
    Sorting.SortDescPermutation(items, ScoreOf);
    forall k | 0 <= k < |r| ensures IsScoredPaper(r[k], query, papers, sqrt) {
      assert r[k] == sorted[k];
      assert sorted[k] in multiset(items);
      var i :| 0 <= i < |items| && items[i] == sorted[k];
    }
    forall v ensures Sorting.IsPrefix(Sorting.WithKey(r, ScoreOf, v), Sorting.WithKey(items, ScoreOf, v)) {
      Sorting.SortDescStable(items, ScoreOf, v);
      Sorting.WithKeyPrefix(sorted, |r|, ScoreOf, v);
    }
  }
}
