/** The metrics collector (`papers_digest/metrics.py`): a record per digest
    and per post, system-wide counters updated in place, and the daily
    summary computed from a day's records. Writing and reading the JSON
    files is not modelled; the records a day's files hold are passed in. */
module Metrics {
  import Text
  import Numerics
  import Ranking
  import opened Models

  /** One digest run. Timestamps and dates are the strings the source writes. */
  datatype DigestMetrics = DigestMetrics(
    timestamp: string,
    query: string,
    targetDate: string,
    papersFound: nat,
    papersRanked: nat,
    sourcesUsed: nat,
    papersPerSource: map<string, int>,
    avgRelevanceScore: real,
    minRelevanceScore: real,
    maxRelevanceScore: real,
    generationTimeSeconds: real,
    sourceErrors: map<string, string>,
    summarizerUsed: string,
    digestLengthChars: nat,
    digestPartsCount: nat)

  /** One attempt to post a digest. */
  datatype PostMetrics = PostMetrics(
    timestamp: string,
    channelId: string,
    success: bool,
    errorMessage: string,
    partsSent: int,
    totalChars: int)

  // ---------------------------------------------------------------------
  // Relevance statistics in `record_digest`

  function Sum(xs: seq<real>): real {
    if xs == [] then 0.0 else Sum(xs[..|xs| - 1]) + xs[|xs| - 1]
  }

  function Min(xs: seq<real>): (m: real)
    requires xs != []
    ensures m in xs && forall x :: x in xs ==> m <= x
  {
    if |xs| == 1 then xs[0]
    else
      var m := Min(xs[..|xs| - 1]);
      assert forall x :: x in xs ==> x in xs[..|xs| - 1] || x == xs[|xs| - 1];
      if xs[|xs| - 1] < m then xs[|xs| - 1] else m
  }

  function Max(xs: seq<real>): (m: real)
    requires xs != []
    ensures m in xs && forall x :: x in xs ==> x <= m
  {
    if |xs| == 1 then xs[0]
    else
      var m := Max(xs[..|xs| - 1]);
      assert forall x :: x in xs ==> x in xs[..|xs| - 1] || x == xs[|xs| - 1];
      if xs[|xs| - 1] > m then xs[|xs| - 1] else m
  }

  function Average(xs: seq<real>): real
    requires xs != []
  {
    Sum(xs) / (|xs| as real)
  }

  /** The scores `record_digest` summarises: each ranked paper's score, or
      the single score 0 when nothing was ranked. */
  function Scores(query: string, ranked: seq<Paper>, ln: Numerics.LogFn): (scores: seq<real>)
    ensures scores != []
    ensures ranked == [] ==> scores == [0.0]
    ensures ranked != [] ==>
      (|scores| == |ranked| && forall i :: 0 <= i < |ranked| ==> scores[i] == Ranking.Score(query, ranked[i], ln))
  {
    if ranked == [] then [0.0]
    else seq(|ranked|, i requires 0 <= i < |ranked| => Ranking.Score(query, ranked[i], ln))
  }

  /** A sum lies between the count times the least and the count times the
      greatest element. */
  lemma {:induction false} SumBetween(xs: seq<real>, lo: real, hi: real)
    requires forall x :: x in xs ==> lo <= x <= hi
    ensures (|xs| as real) * lo <= Sum(xs) <= (|xs| as real) * hi
  {
    if xs != [] {
      var init := xs[..|xs| - 1];
      assert forall x :: x in init ==> x in xs;
      SumBetween(init, lo, hi);
      assert xs[|xs| - 1] in xs;
    }
  }

  /** The average lies between the minimum and the maximum. */
  lemma AverageBetween(xs: seq<real>)
    requires xs != []
    ensures Min(xs) <= Average(xs) <= Max(xs)
  {
    SumBetween(xs, Min(xs), Max(xs));
    QuotientBetween(Sum(xs), |xs| as real, Min(xs), Max(xs));
  }

  lemma QuotientBetween(s: real, n: real, lo: real, hi: real)
    requires 0.0 < n && n * lo <= s <= n * hi
    ensures lo <= s / n <= hi
  {
    var q := s / n;
    assert n * q == s;
  }

  /** The metrics `record_digest` derives from its arguments; `timestamp` is
      the clock reading it takes. */
  function DigestRecord(
    timestamp: string, query: string, targetDate: Date, papers: seq<Paper>, ranked: seq<Paper>,
    sourcesUsed: seq<string>, papersPerSource: map<string, int>, sourceErrors: map<string, string>,
    generationTime: real, summarizerName: string, digestParts: seq<string>, ln: Numerics.LogFn): DigestMetrics
  {
    var scores := Scores(query, ranked, ln);
    DigestMetrics(
      timestamp, query, targetDate.IsoFormat(), |papers|, |ranked|, |sourcesUsed|, papersPerSource,
      Average(scores), Min(scores), Max(scores), generationTime, sourceErrors, summarizerName,
      Text.SumLengths(digestParts), |digestParts|)
  }

  /** The relevance statistics of a digest record: all 0 when nothing was
      ranked; otherwise never negative, with the least score at most the
      average and the average at most the greatest. */
  lemma DigestRecordScores(
    timestamp: string, query: string, targetDate: Date, papers: seq<Paper>, ranked: seq<Paper>,
    sourcesUsed: seq<string>, papersPerSource: map<string, int>, sourceErrors: map<string, string>,
    generationTime: real, summarizerName: string, digestParts: seq<string>, ln: Numerics.LogFn)
    ensures var m := DigestRecord(timestamp, query, targetDate, papers, ranked, sourcesUsed, papersPerSource,
      sourceErrors, generationTime, summarizerName, digestParts, ln);
      && m.papersFound == |papers| && m.papersRanked == |ranked| && m.sourcesUsed == |sourcesUsed|
      && m.digestPartsCount == |digestParts|
      && (ranked == [] ==> m.avgRelevanceScore == 0.0 && m.minRelevanceScore == 0.0 && m.maxRelevanceScore == 0.0)
      && 0.0 <= m.minRelevanceScore <= m.avgRelevanceScore <= m.maxRelevanceScore
  {
    var scores := Scores(query, ranked, ln);
    AverageBetween(scores);
    if ranked == [] {
      assert Sum(scores) == 0.0;
    } else {
      var i :| 0 <= i < |scores| && scores[i] == Min(scores);
      Ranking.ScoreSign(query, ranked[i], ln);
    }
  }

  // ---------------------------------------------------------------------
  // The system-wide counters

  /** The rates map after a digest: every source of the digest that had no
      entry gets 0.0; existing entries keep their value. */
  function AddSources(rates: map<string, real>, sources: set<string>): (r: map<string, real>)
    ensures r.Keys == rates.Keys + sources
    ensures forall s :: s in rates ==> r[s] == rates[s]
    ensures forall s :: s in sources && s !in rates ==> r[s] == 0.0
  {
    map s | s in rates.Keys + sources :: if s in rates then rates[s] else 0.0
  }

  /** `MetricsCollector` with the integer counters of `SystemMetrics`, the
      source rates and the last digest time. */
  class MetricsCollector {
    var totalDigests: nat
    var totalPosts: nat
    var successfulPosts: nat
    var failedPosts: nat
    var totalPapersProcessed: nat
    var channelsCount: nat
    var sourcesSuccessRate: map<string, real>
    var uptimeStart: string
    var lastDigestTime: string

    /** Every post counted is either a success or a failure. */
    predicate Valid()
      reads this
    {
      totalPosts == successfulPosts + failedPosts
    }

    /** A collector with no saved metrics starts from zero. */
    constructor ()
      ensures Valid()
      ensures totalDigests == 0 && totalPosts == 0 && totalPapersProcessed == 0
      ensures successfulPosts == 0 && failedPosts == 0 && channelsCount == 0
      ensures sourcesSuccessRate == map[] && uptimeStart == "" && lastDigestTime == ""
    {
      totalDigests, totalPosts, successfulPosts, failedPosts := 0, 0, 0, 0;
      totalPapersProcessed, channelsCount := 0, 0;
      sourcesSuccessRate := map[];
      uptimeStart, lastDigestTime := "", "";
    }

    /** `_update_system_metrics`: one more digest, its papers added to the
      total, its time recorded, and a 0.0 rate for each source not seen
      before. Post counters are untouched. */
    method UpdateSystemMetrics(metrics: DigestMetrics)
      modifies this
      ensures totalDigests == old(totalDigests) + 1
      ensures totalPapersProcessed == old(totalPapersProcessed) + metrics.papersFound
      ensures lastDigestTime == metrics.timestamp
      ensures sourcesSuccessRate == AddSources(old(sourcesSuccessRate), metrics.papersPerSource.Keys)
      ensures totalPosts == old(totalPosts) && successfulPosts == old(successfulPosts)
      ensures failedPosts == old(failedPosts) && channelsCount == old(channelsCount)
      ensures uptimeStart == old(uptimeStart)
    {
      totalDigests := totalDigests + 1;
      totalPapersProcessed := totalPapersProcessed + metrics.papersFound;
      lastDigestTime := metrics.timestamp;
      var rates := sourcesSuccessRate;
      var rest := metrics.papersPerSource.Keys;
      while rest != {}
        invariant rest <= metrics.papersPerSource.Keys
        invariant rates == AddSources(sourcesSuccessRate, metrics.papersPerSource.Keys - rest)
        decreases rest
      {
        var source :| source in rest;
        if source !in rates {
          rates := rates[source := 0.0];
        }
        rest := rest - {source};
      }
      assert metrics.papersPerSource.Keys - rest == metrics.papersPerSource.Keys;
      sourcesSuccessRate := rates;
    }

    /** `_update_post_metrics`: one more post, counted as a success or a
      failure. Digest counters are untouched. */
    method UpdatePostMetrics(success: bool)
      requires Valid()
      modifies this
      ensures Valid()
      ensures totalPosts == old(totalPosts) + 1
      ensures successfulPosts == old(successfulPosts) + (if success then 1 else 0)
      ensures failedPosts == old(failedPosts) + (if success then 0 else 1)
      ensures totalDigests == old(totalDigests) && totalPapersProcessed == old(totalPapersProcessed)
      ensures sourcesSuccessRate == old(sourcesSuccessRate) && lastDigestTime == old(lastDigestTime)
      ensures channelsCount == old(channelsCount) && uptimeStart == old(uptimeStart)
    {
      totalPosts := totalPosts + 1;
      if success {
        successfulPosts := successfulPosts + 1;
      } else {
        failedPosts := failedPosts + 1;
      }
    }

    /** `record_digest`: builds the digest's record and updates the counters
      with it. */
    method RecordDigest(
      timestamp: string, query: string, targetDate: Date, papers: seq<Paper>, ranked: seq<Paper>,
      sourcesUsed: seq<string>, papersPerSource: map<string, int>, sourceErrors: map<string, string>,
      generationTime: real, summarizerName: string, digestParts: seq<string>, ln: Numerics.LogFn)
      returns (metrics: DigestMetrics)
      requires Valid()
      modifies this
      ensures Valid()
      ensures metrics == DigestRecord(timestamp, query, targetDate, papers, ranked, sourcesUsed,
        papersPerSource, sourceErrors, generationTime, summarizerName, digestParts, ln)
      ensures totalDigests == old(totalDigests) + 1
      ensures totalPapersProcessed == old(totalPapersProcessed) + |papers|
      ensures lastDigestTime == timestamp
      ensures sourcesSuccessRate == AddSources(old(sourcesSuccessRate), papersPerSource.Keys)
      ensures totalPosts == old(totalPosts) && successfulPosts == old(successfulPosts)
      ensures failedPosts == old(failedPosts) && channelsCount == old(channelsCount)
      ensures uptimeStart == old(uptimeStart)
    {
      metrics := DigestRecord(timestamp, query, targetDate, papers, ranked, sourcesUsed,
        papersPerSource, sourceErrors, generationTime, summarizerName, digestParts, ln);
      UpdateSystemMetrics(metrics);
    }

    /** `record_post`: builds the post's record and updates the counters. */
    method RecordPost(
      timestamp: string, channelId: string, success: bool, partsSent: int, totalChars: int,
      errorMessage: string)
      returns (metrics: PostMetrics)
      requires Valid()
      modifies this
      ensures Valid()
      ensures metrics == PostMetrics(timestamp, channelId, success, errorMessage, partsSent, totalChars)
      ensures totalPosts == old(totalPosts) + 1
      ensures successfulPosts == old(successfulPosts) + (if success then 1 else 0)
      ensures failedPosts == old(failedPosts) + (if success then 0 else 1)
      ensures totalDigests == old(totalDigests) && totalPapersProcessed == old(totalPapersProcessed)
      ensures sourcesSuccessRate == old(sourcesSuccessRate) && lastDigestTime == old(lastDigestTime)
      ensures channelsCount == old(channelsCount) && uptimeStart == old(uptimeStart)
    {
      metrics := PostMetrics(timestamp, channelId, success, errorMessage, partsSent, totalChars);
      UpdatePostMetrics(success);
    }
  }

  // ---------------------------------------------------------------------
  // `get_daily_summary`

  datatype DailySummary = DailySummary(
    date: string,
    digestsCount: nat,
    postsCount: nat,
    successfulPosts: nat,
    failedPosts: nat,
    totalPapersFound: nat,
    totalPapersRanked: nat,
    avgRelevanceScore: real,
    avgGenerationTime: real,
    sourcesUsed: set<string>)

  function CountSuccesses(posts: seq<PostMetrics>): nat {
    if posts == [] then 0 else CountSuccesses(posts[..|posts| - 1]) + (if posts[|posts| - 1].success then 1 else 0)
  }

  function CountFailures(posts: seq<PostMetrics>): nat {
    if posts == [] then 0 else CountFailures(posts[..|posts| - 1]) + (if posts[|posts| - 1].success then 0 else 1)
  }

  function SumFound(digests: seq<DigestMetrics>): nat {
    if digests == [] then 0 else SumFound(digests[..|digests| - 1]) + digests[|digests| - 1].papersFound
  }

  function SumRanked(digests: seq<DigestMetrics>): nat {
    if digests == [] then 0 else SumRanked(digests[..|digests| - 1]) + digests[|digests| - 1].papersRanked
  }

  function SumRelevance(digests: seq<DigestMetrics>): real {
    if digests == [] then 0.0 else SumRelevance(digests[..|digests| - 1]) + digests[|digests| - 1].avgRelevanceScore
  }

  function SumGenerationTime(digests: seq<DigestMetrics>): real {
    if digests == [] then 0.0
    else SumGenerationTime(digests[..|digests| - 1]) + digests[|digests| - 1].generationTimeSeconds
  }

  /** The sources named in any of the day's digests. */
  function SourcesOf(digests: seq<DigestMetrics>): (r: set<string>)
    ensures forall s :: s in r <==> exists i :: 0 <= i < |digests| && s in digests[i].papersPerSource
  {
    set i, s | 0 <= i < |digests| && s in digests[i].papersPerSource :: s
  }

  /** `get_daily_summary` over the records of the day's two files. */
  function Summary(date: Date, digests: seq<DigestMetrics>, posts: seq<PostMetrics>): DailySummary {
    var n := |digests| as real;
    DailySummary(
      date.IsoFormat(), |digests|, |posts|, CountSuccesses(posts), CountFailures(posts),
      SumFound(digests), SumRanked(digests),
      if digests == [] then 0.0 else SumRelevance(digests) / n,
      if digests == [] then 0.0 else SumGenerationTime(digests) / n,
      SourcesOf(digests))
  }

  /** Every post of the day is counted once, as a success or as a failure. */
  lemma {:induction false} PostsSplit(posts: seq<PostMetrics>)
    ensures CountSuccesses(posts) + CountFailures(posts) == |posts|
  {
    if posts != [] {
      PostsSplit(posts[..|posts| - 1]);
    }
  }

  lemma {:induction false} SumFoundAppend(digests: seq<DigestMetrics>, d: DigestMetrics)
    ensures SumFound(digests + [d]) == SumFound(digests) + d.papersFound
  {
    assert (digests + [d])[..|digests|] == digests;
  }

  /** The daily summary's post counts split the day's posts, and its paper
      totals are the sums over the day's digests: adding one more digest
      record adds its counts. */
  lemma SummaryTotals(date: Date, digests: seq<DigestMetrics>, posts: seq<PostMetrics>, d: DigestMetrics)
    ensures var s := Summary(date, digests, posts);
      s.successfulPosts + s.failedPosts == s.postsCount
    ensures Summary(date, digests + [d], posts).totalPapersFound == Summary(date, digests, posts).totalPapersFound + d.papersFound
    ensures Summary(date, [], posts).totalPapersFound == 0
  {
    PostsSplit(posts);
    SumFoundAppend(digests, d);
  }
}
