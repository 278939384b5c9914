/** The ranker used by the digest pipeline and the metrics
    (`papers_digest/ranking.py`): a log-frequency score summed over the query
    terms, a stable descending sort truncated to a limit, and the keyword
    extractor built on a `Counter`. */
module Ranking {
  import opened Wrappers
  import Text
  import Numerics
  import Sorting
  import opened Models
  import Ranker

  /** `_tokenize`: lowercase the text, then take its maximal `[a-z0-9]+`
      runs, left to right. */
  function Tokenize(text: string): seq<string> {
    Text.Runs(Text.Lower(text), Text.IsLowerAlnum)
  }

  /** On ASCII text lowercasing first and matching `[a-z0-9]+` gives the same
      tokens as matching `[A-Za-z0-9]+` and lowercasing each run. */
  lemma {:induction false} TokenizeAgrees(text: string)
    ensures Tokenize(text) == Ranker.Tokens(text)
    decreases |text|
  {
    var low := Text.Lower(text);
    if text == [] {
    } else if !Text.IsAsciiAlnum(text[0]) {
      assert low[1..] == Text.Lower(text[1..]);
      TokenizeAgrees(text[1..]);
      assert Text.Runs(text, Text.IsAsciiAlnum) == Text.Runs(text[1..], Text.IsAsciiAlnum);
    } else {
      var n := Text.RunLength(text, Text.IsAsciiAlnum);
      RunLengthLower(text);
      assert low[..n] == Text.Lower(text[..n]);
      assert low[n..] == Text.Lower(text[n..]);
      TokenizeAgrees(text[n..]);
      TokensCons(text, n);
    }
  }

  lemma TokensCons(text: string, n: nat)
    requires text != [] && Text.IsAsciiAlnum(text[0]) && n == Text.RunLength(text, Text.IsAsciiAlnum)
    ensures Ranker.Tokens(text) == [Text.Lower(text[..n])] + Ranker.Tokens(text[n..])
  {
    var runs := Text.Runs(text, Text.IsAsciiAlnum);
    var rest := Text.Runs(text[n..], Text.IsAsciiAlnum);
    assert runs == [text[..n]] + rest;
    var l, r := Ranker.Tokens(text), Ranker.Tokens(text[n..]);
    forall k | 0 <= k < |l| ensures l[k] == ([Text.Lower(text[..n])] + r)[k] {
      if k > 0 { assert runs[k] == rest[k - 1]; }
    }
  }

  lemma {:induction false} RunLengthLower(text: string)
    ensures Text.RunLength(Text.Lower(text), Text.IsLowerAlnum) == Text.RunLength(text, Text.IsAsciiAlnum)
    decreases |text|
  {
    if text != [] {
      assert Text.Lower(text)[1..] == Text.Lower(text[1..]);
      RunLengthLower(text[1..]);
    }
  }

  /** `f"{paper.title} {paper.abstract}"`: a missing abstract is formatted as
      the word `None`. */
  function ScoreText(paper: Paper): string {
    paper.title + " " + paper.abstractText.GetOr("None")
  }

  /** The tokens of the scored text are the title's followed by the
      abstract's; a missing abstract contributes the single token `none`. */
  lemma PaperTokens(paper: Paper)
    ensures paper.abstractText.Some? ==>
      Tokenize(ScoreText(paper)) == Tokenize(paper.title) + Tokenize(paper.abstractText.value)
    ensures paper.abstractText.None? ==> Tokenize(ScoreText(paper)) == Tokenize(paper.title) + ["none"]
  {
    var a := paper.abstractText.GetOr("None");
    assert Text.Lower(ScoreText(paper)) == Text.Lower(paper.title) + [' '] + Text.Lower(a);
    Text.RunsSep(Text.Lower(paper.title), ' ', Text.Lower(a), Text.IsLowerAlnum);
    if paper.abstractText.None? {
      var w := Text.Lower("None");
      assert w == "none";
      assert Text.RunLength(w, Text.IsLowerAlnum) == 4 by {
        assert w[1..] == "one" && w[2..] == "ne" && w[3..] == "e" && w[4..] == "";
      }
      assert w[..4] == w && w[4..] == "";
    }
  }

  // ---------------------------------------------------------------------
  // score_paper and rank_papers

  /** What one query term adds: `1 + ln(tf)` when it occurs `tf > 0` times,
      nothing when it does not occur. */
  function TermScore(tf: nat, ln: Numerics.LogFn): real {
    if tf == 0 then 0.0 else 1.0 + ln(tf)
  }

  /** The sum the loop of `score_paper` accumulates over `terms`, each
      occurrence of a term in `terms` counted separately. */
  function TermSum(terms: seq<string>, tokens: seq<string>, ln: Numerics.LogFn): real {
    if terms == [] then 0.0
    else TermSum(terms[..|terms| - 1], tokens, ln) + TermScore(Text.Occurrences(terms[|terms| - 1], tokens), ln)
  }

  /** The result of `score_paper`. */
  function Score(query: string, paper: Paper, ln: Numerics.LogFn): real {
    var q := Tokenize(query);
    if q == [] then 0.0 else TermSum(q, Tokenize(ScoreText(paper)), ln)
  }

  /** `score_paper`: counts the text's tokens once, then adds `1 + ln(tf)` for
      every query term that occurs. */
  method ScorePaper(query: string, paper: Paper, ln: Numerics.LogFn) returns (score: real)
    ensures score == Score(query, paper, ln)
  {
    var queryTerms := Tokenize(query);
    if queryTerms == [] {
      return 0.0;
    }
    var tokens := Tokenize(ScoreText(paper));
    var counts := Update([], tokens);
    score := 0.0;
    for i := 0 to |queryTerms|
      invariant score == TermSum(queryTerms[..i], tokens, ln)
    {
      assert queryTerms[..i + 1][..i] == queryTerms[..i];
      var tf := Get(counts, queryTerms[i]);
      if tf == 0 {
        continue;
      }
      score := score + 1.0 + ln(tf);
    }
    assert queryTerms[..|queryTerms|] == queryTerms;
  }

  /** Number of positions of `terms` holding a term that occurs in `tokens`. */
  function Matches(terms: seq<string>, tokens: seq<string>): nat {
    if terms == [] then 0
    else Matches(terms[..|terms| - 1], tokens) + (if terms[|terms| - 1] in tokens then 1 else 0)
  }

  /** Every occurring term adds at least 1 and an absent one adds nothing: the
      sum is at least the number of matching positions, and positive exactly
      when some term occurs. */
  lemma {:induction false} TermSumBounds(terms: seq<string>, tokens: seq<string>, ln: Numerics.LogFn)
    ensures TermSum(terms, tokens, ln) >= Matches(terms, tokens) as real
    ensures TermSum(terms, tokens, ln) > 0.0 <==> exists i :: 0 <= i < |terms| && terms[i] in tokens
  {
    if terms != [] {
      var init, last := terms[..|terms| - 1], terms[|terms| - 1];
      TermSumBounds(init, tokens, ln);
      var tf := Text.Occurrences(last, tokens);
      if last in tokens {
        Text.OccurrencesPresent(last, tokens);
        assert ln(tf) >= 0.0;
      } else {
        Text.OccurrencesAbsent(last, tokens);
      }
      if exists i :: 0 <= i < |init| && init[i] in tokens {
        var i :| 0 <= i < |init| && init[i] in tokens;
        assert terms[i] == init[i];
      }
      if exists i :: 0 <= i < |terms| && terms[i] in tokens {
        var i :| 0 <= i < |terms| && terms[i] in tokens;
        if i < |init| {
          assert init[i] == terms[i];
        }
      }
    }
  }

  /** Terms add up independently: a repeated query term is counted again. */
  lemma {:induction false} TermSumAppend(q1: seq<string>, q2: seq<string>, tokens: seq<string>, ln: Numerics.LogFn)
    ensures TermSum(q1 + q2, tokens, ln) == TermSum(q1, tokens, ln) + TermSum(q2, tokens, ln)
    decreases |q2|
  {
    if q2 == [] {
      assert q1 + q2 == q1;
    } else {
      var init := q2[..|q2| - 1];
      TermSumAppend(q1, init, tokens, ln);
      assert (q1 + q2)[..|q1 + q2| - 1] == q1 + init;
    }
  }

  /** When no query term occurs more than once, `ln(1) = 0` leaves the score
      equal to the number of matching query positions. */
  lemma {:induction false} TermSumSingles(terms: seq<string>, tokens: seq<string>, ln: Numerics.LogFn)
    requires forall i :: 0 <= i < |terms| ==> Text.Occurrences(terms[i], tokens) <= 1
    ensures TermSum(terms, tokens, ln) == Matches(terms, tokens) as real
  {
    if terms != [] {
      var init, last := terms[..|terms| - 1], terms[|terms| - 1];
      assert forall i :: 0 <= i < |init| ==> init[i] == terms[i];
      TermSumSingles(init, tokens, ln);
      if last in tokens {
        Text.OccurrencesPresent(last, tokens);
      } else {
        Text.OccurrencesAbsent(last, tokens);
      }
    }
  }

  /** The score is 0 for a query without tokens, never negative, and
      positive exactly when some query term occurs in the title or abstract. */
  lemma ScoreSign(query: string, paper: Paper, ln: Numerics.LogFn)
    ensures Tokenize(query) == [] ==> Score(query, paper, ln) == 0.0
    ensures 0.0 <= Score(query, paper, ln)
    ensures Score(query, paper, ln) > 0.0 <==>
      exists i :: 0 <= i < |Tokenize(query)| && Tokenize(query)[i] in Tokenize(ScoreText(paper))
  {
    TermSumBounds(Tokenize(query), Tokenize(ScoreText(paper)), ln);
  }

  function ScoreKey(query: string, ln: Numerics.LogFn): Paper -> real {
    p => Score(query, p, ln)
  }

  /** `rank_papers`: the papers sorted by score, highest first and equal
      scores in input order, cut to the first `limit`. */
  function RankPapers(query: string, papers: seq<Paper>, limit: int, ln: Numerics.LogFn): seq<Paper> {
    Sorting.PyPrefix(Sorting.SortDesc(papers, ScoreKey(query, ln)), limit)
  }

  /** The ranking holds `min(limit, n)` papers of the input for a
      non-negative limit, scores never increase, and papers with equal scores
      keep their input order. */
  lemma RankPapersProperties(query: string, papers: seq<Paper>, limit: int, ln: Numerics.LogFn)
    ensures 0 <= limit ==> |RankPapers(query, papers, limit, ln)| == if limit < |papers| then limit else |papers|
    ensures forall p :: p in RankPapers(query, papers, limit, ln) ==> p in papers
    ensures forall i, j :: 0 <= i < j < |RankPapers(query, papers, limit, ln)| ==>
      Score(query, RankPapers(query, papers, limit, ln)[i], ln) >= Score(query, RankPapers(query, papers, limit, ln)[j], ln)
    ensures forall v :: Sorting.IsPrefix(Sorting.WithKey(RankPapers(query, papers, limit, ln), ScoreKey(query, ln), v),
                                         Sorting.WithKey(papers, ScoreKey(query, ln), v))
  {
    var key := ScoreKey(query, ln);
    var sorted := Sorting.SortDesc(papers, key);
    var r := RankPapers(query, papers, limit, ln);
    Sorting.SortDescPermutation(papers, key);
    Sorting.SortDescSorted(papers, key);
    forall p | p in r ensures p in papers {
      assert p in multiset(sorted);
    }
    forall i, j | 0 <= i < j < |r| ensures Score(query, r[i], ln) >= Score(query, r[j], ln) {
      assert key(sorted[i]) >= key(sorted[j]);
    }
    forall v ensures Sorting.IsPrefix(Sorting.WithKey(r, key, v), Sorting.WithKey(papers, key, v)) {
      Sorting.SortDescStable(papers, key, v);
      Sorting.WithKeyPrefix(sorted, |r|, key, v);
    }
  }

  // ---------------------------------------------------------------------
  // collections.Counter over terms, in insertion order.

  /** One key of a `Counter` with its count. */
  datatype Entry = Entry(term: string, count: nat)

  function Terms(c: seq<Entry>): seq<string> {
    seq(|c|, i requires 0 <= i < |c| => c[i].term)
  }

  function CountKey(e: Entry): real { e.count as real }

  predicate Distinct(ts: seq<string>) {
    forall i, j :: 0 <= i < j < |ts| ==> ts[i] != ts[j]
  }

  /** A well-formed counter: each term once, with a positive count. */
  predicate IsCounter(c: seq<Entry>) {
    Distinct(Terms(c)) && forall i :: 0 <= i < |c| ==> c[i].count > 0
  }

  /** `counter.get(t, 0)`. */
  function Get(c: seq<Entry>, t: string): nat {
    if c == [] then 0 else if c[0].term == t then c[0].count else Get(c[1..], t)
  }

  lemma TermsCons(c: seq<Entry>)
    requires c != []
    ensures Terms(c) == [c[0].term] + Terms(c[1..])
  {
  }

  /** In a well-formed counter the count of an entry's term is that entry's
      count, and a term is present exactly when its count is positive. */
  lemma {:induction false} GetEntry(c: seq<Entry>, t: string)
    requires IsCounter(c)
    ensures Get(c, t) > 0 <==> t in Terms(c)
    ensures forall i :: 0 <= i < |c| && c[i].term == t ==> Get(c, t) == c[i].count
  {
    if c != [] {
      TermsCons(c);
      var rest := c[1..];
      assert Terms(rest) == Terms(c)[1..];
      GetEntry(rest, t);
      if c[0].term == t {
        forall i | 0 < i < |c| ensures c[i].term != t {
          assert Terms(c)[0] != Terms(c)[i];
        }
      } else {
        forall i | 0 < i < |c| && c[i].term == t ensures Get(c, t) == c[i].count {
          assert rest[i - 1] == c[i];
        }
      }
    }
  }

  /** `counter[t] += 1`: a known term keeps its place and gains one, a new
      term is appended with count 1, and every other count is unchanged. */
  function Bump(c: seq<Entry>, t: string): (r: seq<Entry>)
    ensures forall u :: Get(r, u) == Get(c, u) + (if u == t then 1 else 0)
    ensures Terms(r) == if t in Terms(c) then Terms(c) else Terms(c) + [t]
  {
    if c == [] then [Entry(t, 1)]
    else
      TermsCons(c);
      if c[0].term == t then
        var r := [Entry(t, c[0].count + 1)] + c[1..];
        TermsCons(r);
        assert r[1..] == c[1..];
        r
      else
        var r := [c[0]] + Bump(c[1..], t);
        TermsCons(r);
        assert r[1..] == Bump(c[1..], t);
        r
  }

  lemma {:induction false} BumpCounter(c: seq<Entry>, t: string)
    requires IsCounter(c)
    ensures IsCounter(Bump(c, t))
  {
    var r := Bump(c, t);
    if c != [] {
      TermsCons(c);
      assert Terms(c[1..]) == Terms(c)[1..];
      if c[0].term != t {
        BumpCounter(c[1..], t);
        assert r[1..] == Bump(c[1..], t);
      }
      forall i | 0 <= i < |r| ensures r[i].count > 0 {
        if i > 0 { assert r[i] == r[1..][i - 1]; }
      }
    }
    if t !in Terms(c) {
      assert Terms(r) == Terms(c) + [t];
      forall i, j | 0 <= i < j < |r| ensures Terms(r)[i] != Terms(r)[j] {
        if j == |c| { assert Terms(r)[i] == Terms(c)[i]; }
      }
    }
  }

  /** `counter.update(tokens)`: bumps each token in turn; the count of every
      term grows by its number of occurrences among the tokens. */
  function Update(c: seq<Entry>, tokens: seq<string>): (r: seq<Entry>)
    ensures forall u :: Get(r, u) == Get(c, u) + Text.Occurrences(u, tokens)
    decreases |tokens|
  {
    if tokens == [] then c else Update(Bump(c, tokens[0]), tokens[1..])
  }

  /** `counter.pop(t, None)`: removes `t` and leaves every other term. */
  function Pop(c: seq<Entry>, t: string): (r: seq<Entry>)
    ensures forall u :: Get(r, u) == if u == t then 0 else Get(c, u)
    ensures forall u :: u in Terms(r) <==> u in Terms(c) && u != t
  {
    if c == [] then []
    else
      TermsCons(c);
      if c[0].term == t then Pop(c[1..], t)
      else
        var r := [c[0]] + Pop(c[1..], t);
        TermsCons(r);
        assert r[1..] == Pop(c[1..], t);
        r
  }

  lemma {:induction false} UpdateCounter(c: seq<Entry>, tokens: seq<string>)
    requires IsCounter(c)
    ensures IsCounter(Update(c, tokens))
    decreases |tokens|
  {
    if tokens != [] {
      BumpCounter(c, tokens[0]);
      UpdateCounter(Bump(c, tokens[0]), tokens[1..]);
    }
  }

  /** Popping keeps the remaining entries in their order. */
  lemma {:induction false} PopCounter(c: seq<Entry>, t: string)
    requires IsCounter(c)
    ensures IsCounter(Pop(c, t))
    ensures forall e :: e in Pop(c, t) ==> e in c
  {
    if c != [] {
      TermsCons(c);
      assert Terms(c[1..]) == Terms(c)[1..];
      PopCounter(c[1..], t);
      if c[0].term != t {
        var p := Pop(c[1..], t);
        assert Pop(c, t) == [c[0]] + p;
        assert c[0].term !in Terms(c[1..]) by {
          forall i | 0 <= i < |c[1..]| ensures Terms(c[1..])[i] != c[0].term {
            assert Terms(c)[i + 1] != Terms(c)[0];
          }
        }
        ConsCounter(c[0], p);
      }
    }
  }

  /** A fresh term with a positive count can go in front of a counter. */
  lemma ConsCounter(x: Entry, p: seq<Entry>)
    requires IsCounter(p) && x.count > 0 && x.term !in Terms(p)
    ensures IsCounter([x] + p)
  {
    var r := [x] + p;
    TermsCons(r);
    assert r[1..] == p;
    forall i, j | 0 <= i < j < |r| ensures Terms(r)[i] != Terms(r)[j] {
      if i == 0 {
        assert Terms(r)[j] == Terms(p)[j - 1];
      } else {
        assert Terms(r)[i] == Terms(p)[i - 1] && Terms(r)[j] == Terms(p)[j - 1];
      }
    }
    forall i | 0 <= i < |r| ensures r[i].count > 0 {
      if i > 0 { assert r[i] == p[i - 1]; }
    }
  }

  // ---------------------------------------------------------------------
  // extract_keywords

  /** Occurrences of `t` among the tokens of all the papers' scored texts. */
  function TotalCount(papers: seq<Paper>, t: string): nat {
    if papers == [] then 0
    else TotalCount(papers[..|papers| - 1], t) + Text.Occurrences(t, Tokenize(ScoreText(papers[|papers| - 1])))
  }

  /** The counter after `tokens.update(...)` for each paper in turn: it holds
      every term that occurs in some paper, with its total count. */
  function CountPapers(papers: seq<Paper>): (r: seq<Entry>)
    ensures IsCounter(r)
    ensures forall t :: Get(r, t) == TotalCount(papers, t)
  {
    if papers == [] then []
    else
      var c := CountPapers(papers[..|papers| - 1]);
      UpdateCounter(c, Tokenize(ScoreText(papers[|papers| - 1])));
      Update(c, Tokenize(ScoreText(papers[|papers| - 1])))
  }

  /** The counter after popping each of `terms` in turn. */
  function PopAll(c: seq<Entry>, terms: seq<string>): (r: seq<Entry>)
    requires IsCounter(c)
    ensures IsCounter(r)
    ensures forall t :: Get(r, t) == if t in terms then 0 else Get(c, t)
    ensures forall t :: t in Terms(r) <==> t in Terms(c) && t !in terms
    ensures forall e :: e in r ==> e in c
  {
    if terms == [] then c
    else
      var p := PopAll(c, terms[..|terms| - 1]);
      PopCounter(p, terms[|terms| - 1]);
      assert forall t :: t in terms <==> t in terms[..|terms| - 1] || t == terms[|terms| - 1] by {
        assert terms == terms[..|terms| - 1] + [terms[|terms| - 1]];
      }
      Pop(p, terms[|terms| - 1])
  }

  /** `counter.most_common(k)`: nothing for `k <= 0`, otherwise the first `k`
      entries of the stable sort by count, highest first. */
  function MostCommon(c: seq<Entry>, k: int): seq<Entry> {
    if k <= 0 then [] else Sorting.PyPrefix(Sorting.SortDesc(c, CountKey), k)
  }

  /** The result of `extract_keywords`. */
  function Keywords(query: string, papers: seq<Paper>, topK: int): seq<string> {
    Terms(MostCommon(PopAll(CountPapers(papers), Tokenize(query)), topK))
  }

  /** `extract_keywords`: counts the tokens of every paper, pops the query
      terms and keeps the terms of the `top_k` most common entries. */
  method ExtractKeywords(query: string, papers: seq<Paper>, topK: int := 5) returns (keywords: seq<string>)
    ensures keywords == Keywords(query, papers, topK)
  {
    var tokens := CountTokens(papers);
    tokens := PopTerms(tokens, Tokenize(query));
    var common := MostCommon(tokens, topK);
    keywords := Terms(common);
  }

  /** The first loop of `extract_keywords`: the counter of every paper's
      tokens. */
  method CountTokens(papers: seq<Paper>) returns (tokens: seq<Entry>)
    ensures tokens == CountPapers(papers)
  {
    tokens := [];
    for i := 0 to |papers|
      invariant tokens == CountPapers(papers[..i])
    {
      ghost var next := papers[..i + 1];
      assert next[..i] == papers[..i] && next[i] == papers[i];
      assert CountPapers(next) == Update(CountPapers(papers[..i]), Tokenize(ScoreText(papers[i])));
      tokens := Update(tokens, Tokenize(ScoreText(papers[i])));
    }
    assert papers[..|papers|] == papers;
  }

  /** The second loop of `extract_keywords`: pops each query term. */
  method PopTerms(counter: seq<Entry>, terms: seq<string>) returns (tokens: seq<Entry>)
    requires IsCounter(counter)
    ensures tokens == PopAll(counter, terms)
  {
    tokens := counter;
    for j := 0 to |terms|
      invariant tokens == PopAll(counter, terms[..j])
    {
      ghost var next := terms[..j + 1];
      assert next[..j] == terms[..j] && next[j] == terms[j];
      assert PopAll(counter, next) == Pop(PopAll(counter, terms[..j]), terms[j]);
      tokens := Pop(tokens, terms[j]);
    }
    assert terms[..|terms|] == terms;
  }

  /** `most_common` returns at most `k` entries (exactly `min(k, n)` for a
      non-negative `k`), all taken from the counter. */
  lemma MostCommonEntries(c: seq<Entry>, k: int)
    ensures |MostCommon(c, k)| <= (if k < 0 then 0 else k)
    ensures 0 <= k ==> |MostCommon(c, k)| == if k < |c| then k else |c|
    ensures forall e :: e in MostCommon(c, k) ==> e in c
  {
    if k > 0 {
      var sorted := Sorting.SortDesc(c, CountKey);
      Sorting.SortDescPermutation(c, CountKey);
      forall e | e in MostCommon(c, k) ensures e in c {
        assert e in multiset(sorted);
      }
    }
  }

  /** No term is returned twice by `most_common` on a well-formed counter. */
  lemma MostCommonDistinct(c: seq<Entry>, k: int)
    requires IsCounter(c)
    ensures Distinct(Terms(MostCommon(c, k)))
  {
    if k > 0 {
      var r := MostCommon(c, k);
      var sorted := Sorting.SortDesc(c, CountKey);
      var term := (e: Entry) => e.term;
      forall i, j | 0 <= i < j < |c| ensures term(c[i]) != term(c[j]) {
        assert Terms(c)[i] != Terms(c)[j];
      }
      Sorting.SortDescInjective(c, CountKey, term);
      forall i, j | 0 <= i < j < |r| ensures Terms(r)[i] != Terms(r)[j] {
        assert r[i] == sorted[i] && r[j] == sorted[j];
      }
    }
  }

  /** Counts never increase along the result, and entries with equal counts
      keep their order in the counter, which is insertion order. */
  lemma MostCommonOrder(c: seq<Entry>, k: int)
    ensures Sorting.SortedDesc(MostCommon(c, k), CountKey)
    ensures forall v :: Sorting.IsPrefix(Sorting.WithKey(MostCommon(c, k), CountKey, v), Sorting.WithKey(c, CountKey, v))
  {
    if k > 0 {
      var r := MostCommon(c, k);
      var sorted := Sorting.SortDesc(c, CountKey);
      Sorting.SortDescSorted(c, CountKey);
      forall v ensures Sorting.IsPrefix(Sorting.WithKey(r, CountKey, v), Sorting.WithKey(c, CountKey, v)) {
        Sorting.SortDescStable(c, CountKey, v);
        Sorting.WithKeyPrefix(sorted, |r|, CountKey, v);
      }
    }
  }

  /** For a positive `k`, an entry left out means the result is full and
      the entry counts no more than the last one returned. */
  lemma MostCommonMaximal(c: seq<Entry>, k: int, e: Entry)
    requires 0 < k && e in c && e !in MostCommon(c, k)
    ensures k == |MostCommon(c, k)| && e.count <= MostCommon(c, k)[k - 1].count
  {
    var r := MostCommon(c, k);
    var sorted := Sorting.SortDesc(c, CountKey);
    Sorting.SortDescPermutation(c, CountKey);
    Sorting.SortDescSorted(c, CountKey);
    assert e in multiset(sorted);
    var m :| 0 <= m < |sorted| && sorted[m] == e;
    assert forall i :: 0 <= i < |r| ==> r[i] == sorted[i];
    assert CountKey(sorted[k - 1]) >= CountKey(sorted[m]);
  }

  /** An entry of a counter that has lost the query terms: its count is the
      term's total count, and it is not a query term. */
  lemma PoppedEntry(query: string, papers: seq<Paper>, e: Entry)
    requires e in PopAll(CountPapers(papers), Tokenize(query))
    ensures e.term !in Tokenize(query)
    ensures e.count == TotalCount(papers, e.term) > 0
  {
    var c := PopAll(CountPapers(papers), Tokenize(query));
    var i :| 0 <= i < |c| && c[i] == e;
    assert Terms(c)[i] == e.term;
    GetEntry(c, e.term);
  }

  /** `extract_keywords` never returns a query term, returns at most `top_k`
      terms, and no term twice. */
  lemma KeywordsShape(query: string, papers: seq<Paper>, topK: int)
    ensures forall i :: 0 <= i < |Keywords(query, papers, topK)| ==> Keywords(query, papers, topK)[i] !in Tokenize(query)
    ensures |Keywords(query, papers, topK)| <= if topK < 0 then 0 else topK
    ensures Distinct(Keywords(query, papers, topK))
  {
    var c := PopAll(CountPapers(papers), Tokenize(query));
    var r := MostCommon(c, topK);
    MostCommonEntries(c, topK);
    MostCommonDistinct(c, topK);
    forall i | 0 <= i < |r| ensures r[i].term !in Tokenize(query) {
      PoppedEntry(query, papers, r[i]);
    }
  }

  /** Every keyword occurs in the papers, and keywords come in order of
      non-increasing total count across the papers. */
  lemma KeywordsByCount(query: string, papers: seq<Paper>, topK: int)
    ensures forall i :: 0 <= i < |Keywords(query, papers, topK)| ==> TotalCount(papers, Keywords(query, papers, topK)[i]) > 0
    ensures forall i, j :: 0 <= i < j < |Keywords(query, papers, topK)| ==>
      TotalCount(papers, Keywords(query, papers, topK)[i]) >= TotalCount(papers, Keywords(query, papers, topK)[j])
  {
    var c := PopAll(CountPapers(papers), Tokenize(query));
    var r := MostCommon(c, topK);
    MostCommonEntries(c, topK);
    MostCommonOrder(c, topK);
    forall i | 0 <= i < |r| ensures r[i].count == TotalCount(papers, r[i].term) > 0 {
      PoppedEntry(query, papers, r[i]);
    }
    forall i, j | 0 <= i < j < |r| ensures r[i].count >= r[j].count {
      assert CountKey(r[i]) >= CountKey(r[j]);
    }
  }

  // ---------------------------------------------------------------------
  // The order of the counter's terms, which breaks ties in `most_common`.

  /** The tokens of every paper's scored text, paper after paper. */
  function AllTokens(papers: seq<Paper>): seq<string> {
    if papers == [] then []
    else AllTokens(papers[..|papers| - 1]) + Tokenize(ScoreText(papers[|papers| - 1]))
  }

  /** `ts` followed by each token of `s` not met before, at its first
      occurrence: the key order of a `Counter` updated with `s`. */
  function Extend(ts: seq<string>, s: seq<string>): seq<string> {
    if s == [] then ts
    else
      var e := Extend(ts, s[..|s| - 1]);
      if s[|s| - 1] in e then e else e + [s[|s| - 1]]
  }

  /** `ts` without the terms listed in `terms`, in the order of `ts`. */
  function Without(ts: seq<string>, terms: seq<string>): seq<string> {
    if ts == [] then [] else (if ts[0] in terms then [] else [ts[0]]) + Without(ts[1..], terms)
  }

  lemma {:induction false} ExtendAppend(ts: seq<string>, a: seq<string>, b: seq<string>)
    ensures Extend(ts, a + b) == Extend(Extend(ts, a), b)
    decreases |b|
  {
    if b == [] {
      assert a + b == a;
    } else {
      ExtendAppend(ts, a, b[..|b| - 1]);
      assert (a + b)[..|a + b| - 1] == a + b[..|b| - 1];
    }
  }

  lemma {:induction false} ExtendMember(ts: seq<string>, s: seq<string>, x: string)
    ensures x in Extend(ts, s) <==> x in ts || x in s
    decreases |s|
  {
    if s != [] {
      ExtendMember(ts, s[..|s| - 1], x);
      assert s == s[..|s| - 1] + [s[|s| - 1]];
    }
  }

  /** Updating a counter appends the new terms in order of first
      occurrence and leaves the known ones in place. */
  lemma {:induction false} UpdateOrder(c: seq<Entry>, tokens: seq<string>)
    ensures Terms(Update(c, tokens)) == Extend(Terms(c), tokens)
    decreases |tokens|
  {
    if tokens != [] {
      UpdateOrder(Bump(c, tokens[0]), tokens[1..]);
      assert Extend(Terms(c), [tokens[0]]) == Terms(Bump(c, tokens[0])) by {
        assert [tokens[0]][..0] == [];
      }
      ExtendAppend(Terms(c), [tokens[0]], tokens[1..]);
      assert [tokens[0]] + tokens[1..] == tokens;
    }
  }

  /** The counter of the papers lists its terms in order of first occurrence
      among the papers' tokens. */
  lemma {:induction false} CountPapersOrder(papers: seq<Paper>)
    ensures Terms(CountPapers(papers)) == Extend([], AllTokens(papers))
  {
    if papers != [] {
      var init := papers[..|papers| - 1];
      var tokens := Tokenize(ScoreText(papers[|papers| - 1]));
      CountPapersOrder(init);
      UpdateOrder(CountPapers(init), tokens);
      ExtendAppend([], AllTokens(init), tokens);
    }
  }

  /** Terms met earlier come earlier in the counter's key order. */
  lemma {:induction false} ExtendOrder(s: seq<string>, x: string, y: string)
    ensures Sorting.Precedes(Extend([], s), x, y) ==> Sorting.Precedes(s, x, y)
    decreases |s|
  {
    if s != [] {
      var init, z := s[..|s| - 1], s[|s| - 1];
      var e := Extend([], init);
      assert s == init + [z];
      ExtendOrder(init, x, y);
      ExtendMember([], init, x);
      ExtendMember([], init, y);
      ExtendMember([], init, z);
      Sorting.PrecedesAppend(init, [z], x, y);
      if z !in e {
        Sorting.PrecedesAppend(e, [z], x, y);
      }
    }
  }

  lemma {:induction false} WithoutMember(ts: seq<string>, terms: seq<string>, x: string)
    ensures x in Without(ts, terms) <==> x in ts && x !in terms
  {
    if ts != [] {
      WithoutMember(ts[1..], terms, x);
      assert ts == [ts[0]] + ts[1..];
    }
  }

  /** Leaving terms out keeps the order of the others. */
  lemma {:induction false} WithoutOrder(ts: seq<string>, terms: seq<string>, x: string, y: string)
    requires x !in terms && y !in terms
    ensures Sorting.Precedes(Without(ts, terms), x, y) <==> Sorting.Precedes(ts, x, y)
  {
    if ts != [] {
      var head := if ts[0] in terms then [] else [ts[0]];
      var rest := Without(ts[1..], terms);
      assert ts == [ts[0]] + ts[1..];
      assert Without(ts, terms) == head + rest;
      WithoutOrder(ts[1..], terms, x, y);
      WithoutMember(ts[1..], terms, y);
      Sorting.PrecedesAppend([ts[0]], ts[1..], x, y);
      Sorting.PrecedesAppend(head, rest, x, y);
    }
  }

  lemma {:induction false} WithoutNone(ts: seq<string>)
    ensures Without(ts, []) == ts
  {
    if ts != [] {
      WithoutNone(ts[1..]);
    }
  }

  lemma {:induction false} WithoutSnoc(ts: seq<string>, terms: seq<string>, t: string)
    ensures Without(Without(ts, terms), [t]) == Without(ts, terms + [t])
  {
    if ts != [] {
      WithoutSnoc(ts[1..], terms, t);
      var w := Without(ts, terms);
      if ts[0] !in terms {
        assert w[0] == ts[0] && w[1..] == Without(ts[1..], terms);
      } else {
        assert w == Without(ts[1..], terms);
      }
    }
  }

  /** Popping `t` leaves the other terms in their order. */
  lemma {:induction false} PopOrder(c: seq<Entry>, t: string)
    ensures Terms(Pop(c, t)) == Without(Terms(c), [t])
  {
    if c != [] {
      TermsCons(c);
      PopOrder(c[1..], t);
      assert Terms(c)[1..] == Terms(c[1..]);
      if c[0].term != t {
        TermsCons(Pop(c, t));
        assert Pop(c, t)[1..] == Pop(c[1..], t);
      }
    }
  }

  /** Popping the query terms leaves the other terms in their order. */
  lemma {:induction false} PopAllOrder(c: seq<Entry>, terms: seq<string>)
    requires IsCounter(c)
    ensures Terms(PopAll(c, terms)) == Without(Terms(c), terms)
  {
    if terms == [] {
      WithoutNone(Terms(c));
    } else {
      var init := terms[..|terms| - 1];
      PopAllOrder(c, init);
      PopOrder(PopAll(c, init), terms[|terms| - 1]);
      WithoutSnoc(Terms(c), init, terms[|terms| - 1]);
      assert init + [terms[|terms| - 1]] == terms;
    }
  }

  /** In a counter, entries and their terms come in the same order. */
  lemma TermsOrder(c: seq<Entry>, d: Entry, e: Entry)
    requires IsCounter(c) && Sorting.Precedes(c, d, e)
    ensures Sorting.Precedes(Terms(c), d.term, e.term)
  {
    FirstAtTerm(c, d);
    FirstAtTerm(c, e);
  }

  lemma FirstAtTerm(c: seq<Entry>, e: Entry)
    requires IsCounter(c) && e in c
    ensures Sorting.FirstAt(Terms(c), e.term) == Sorting.FirstAt(c, e)
  {
    var i := Sorting.FirstAt(c, e);
    assert Terms(c)[i] == e.term;
    forall k | 0 <= k < i ensures Terms(c)[k] != e.term {
      assert Terms(c)[k] != Terms(c)[i];
    }
  }

  /** Keywords with the same total count come in the order in which they
      first occur among the papers' tokens: the counter keeps its keys in
      insertion order and `most_common` sorts stably. */
  lemma KeywordsTieOrder(query: string, papers: seq<Paper>, topK: int)
    ensures forall i, j ::
      (0 <= i < j < |Keywords(query, papers, topK)| &&
       TotalCount(papers, Keywords(query, papers, topK)[i]) == TotalCount(papers, Keywords(query, papers, topK)[j]))
      ==> Sorting.Precedes(AllTokens(papers), Keywords(query, papers, topK)[i], Keywords(query, papers, topK)[j])
  {
    var kw := Keywords(query, papers, topK);
    forall i, j | 0 <= i < j < |kw| && TotalCount(papers, kw[i]) == TotalCount(papers, kw[j])
      ensures Sorting.Precedes(AllTokens(papers), kw[i], kw[j])
    {
      TieOrder(query, papers, topK, i, j);
    }
  }

  lemma TieOrder(query: string, papers: seq<Paper>, topK: int, i: nat, j: nat)
    requires i < j < |Keywords(query, papers, topK)|
    requires TotalCount(papers, Keywords(query, papers, topK)[i]) == TotalCount(papers, Keywords(query, papers, topK)[j])
    ensures Sorting.Precedes(AllTokens(papers), Keywords(query, papers, topK)[i], Keywords(query, papers, topK)[j])
  {
    var c := CountPapers(papers);
    var q := Tokenize(query);
    var p := PopAll(c, q);
    var m := MostCommon(p, topK);
    var x, y := m[i], m[j];
    MostCommonEntries(p, topK);
    MostCommonDistinct(p, topK);
    PoppedEntry(query, papers, x);
    PoppedEntry(query, papers, y);
    var v := CountKey(x);
    assert CountKey(y) == v;
    assert Sorting.Precedes(m, x, y) by {
      forall k | 0 <= k < j ensures m[k] != y {
        assert Terms(m)[k] != Terms(m)[j];
      }
      forall k | 0 <= k < i ensures m[k] != x {
        assert Terms(m)[k] != Terms(m)[i];
      }
    }
    Sorting.WithKeyOrder(m, CountKey, v, x, y);
    MostCommonOrder(p, topK);
    Sorting.PrefixOrder(Sorting.WithKey(m, CountKey, v), Sorting.WithKey(p, CountKey, v), x, y);
    Sorting.WithKeyOrder(p, CountKey, v, x, y);
    TermsOrder(p, x, y);
    PopAllOrder(c, q);
    WithoutOrder(Terms(c), q, x.term, y.term);
    CountPapersOrder(papers);
    ExtendOrder(AllTokens(papers), x.term, y.term);
  }

  /** A term with a positive total count occurs in some paper. */
  lemma {:induction false} TotalCountOccurs(papers: seq<Paper>, t: string)
    requires TotalCount(papers, t) > 0
    ensures exists p :: 0 <= p < |papers| && t in Tokenize(ScoreText(papers[p]))
  {
    var init := papers[..|papers| - 1];
    if Text.Occurrences(t, Tokenize(ScoreText(papers[|papers| - 1]))) > 0 {
      if t !in Tokenize(ScoreText(papers[|papers| - 1])) {
        Text.OccurrencesAbsent(t, Tokenize(ScoreText(papers[|papers| - 1])));
      }
    } else {
      TotalCountOccurs(init, t);
      var p :| 0 <= p < |init| && t in Tokenize(ScoreText(init[p]));
      assert papers[p] == init[p];
    }
  }

  /** Every keyword is a token of some paper's title and abstract. */
  lemma KeywordsOccur(query: string, papers: seq<Paper>, topK: int, i: nat)
    requires i < |Keywords(query, papers, topK)|
    ensures exists p :: 0 <= p < |papers| && Keywords(query, papers, topK)[i] in Tokenize(ScoreText(papers[p]))
  {
    KeywordsByCount(query, papers, topK);
    TotalCountOccurs(papers, Keywords(query, papers, topK)[i]);
  }

  /** A term of the papers that is not a query term and is not returned
      counts no more than the last keyword, and then exactly `top_k`
      keywords were returned. */
  lemma KeywordsMaximal(query: string, papers: seq<Paper>, topK: int, t: string)
    requires 0 < topK && t !in Tokenize(query) && TotalCount(papers, t) > 0
    requires t !in Keywords(query, papers, topK)
    ensures |Keywords(query, papers, topK)| == topK
    ensures TotalCount(papers, t) <= TotalCount(papers, Keywords(query, papers, topK)[topK - 1])
  {
    var c := PopAll(CountPapers(papers), Tokenize(query));
    PoppedTerm(query, papers, t);
    CounterMaximal(c, topK, t);
    LastKeywordCount(query, papers, topK);
  }

  /** A term of the papers that is not a query term stays in the counter
      with its total count. */
  lemma PoppedTerm(query: string, papers: seq<Paper>, t: string)
    requires t !in Tokenize(query) && TotalCount(papers, t) > 0
    ensures var c := PopAll(CountPapers(papers), Tokenize(query));
      IsCounter(c) && t in Terms(c) && Get(c, t) == TotalCount(papers, t)
  {
    var c := PopAll(CountPapers(papers), Tokenize(query));
    assert Get(c, t) == TotalCount(papers, t);
    GetEntry(c, t);
  }

  /** The count of the last of `top_k` keywords is its total count. */
  lemma LastKeywordCount(query: string, papers: seq<Paper>, topK: int)
    requires 0 < topK
    requires |MostCommon(PopAll(CountPapers(papers), Tokenize(query)), topK)| == topK
    ensures |Keywords(query, papers, topK)| == topK
    ensures MostCommon(PopAll(CountPapers(papers), Tokenize(query)), topK)[topK - 1].count
      == TotalCount(papers, Keywords(query, papers, topK)[topK - 1])
  {
    var c := PopAll(CountPapers(papers), Tokenize(query));
    LastCommon(c, topK);
    PoppedEntry(query, papers, MostCommon(c, topK)[topK - 1]);
  }

  /** The last of `k` most common entries is an entry of the counter, and
      its term is the last term returned. */
  lemma LastCommon(c: seq<Entry>, k: int)
    requires 0 < k && |MostCommon(c, k)| == k
    ensures MostCommon(c, k)[k - 1] in c
    ensures |Terms(MostCommon(c, k))| == k && Terms(MostCommon(c, k))[k - 1] == MostCommon(c, k)[k - 1].term
  {
    var r := MostCommon(c, k);
    TermAt(r, k - 1);
    MostCommonEntries(c, k);
    assert r[k - 1] in r;
  }

  lemma TermAt(c: seq<Entry>, i: nat)
    requires i < |c|
    ensures |Terms(c)| == |c| && Terms(c)[i] == c[i].term
  {
  }

  lemma CounterMaximal(c: seq<Entry>, k: int, t: string)
    requires IsCounter(c) && 0 < k && t in Terms(c) && t !in Terms(MostCommon(c, k))
    ensures |MostCommon(c, k)| == k && Get(c, t) <= MostCommon(c, k)[k - 1].count
  {
    var r := MostCommon(c, k);
    var i :| 0 <= i < |c| && Terms(c)[i] == t;
    var e := c[i];
    if e in r {
      TermsMember(r, e);
    }
    MostCommonMaximal(c, k, e);
    GetEntry(c, t);
  }

  lemma TermsMember(c: seq<Entry>, e: Entry)
    requires e in c
    ensures e.term in Terms(c)
  {
    var j :| 0 <= j < |c| && c[j] == e;
    assert Terms(c)[j] == e.term;
  }
}
