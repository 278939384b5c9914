/** The agent pipeline's own logic (`papers_digest/agents.py`): the plan,
    the source filter and deduplication when fetching, the pairing of ranked
    papers with summaries, and the checks run on the finished report. What
    the paper sources and the language model return is passed in. */
module Agents {
  import Numerics
  import Ranker
  import Sorting
  import opened Models

  datatype ArchitectPlan = ArchitectPlan(query: string, runDate: Date, limit: int, sources: seq<string>)

  /** The sources a plan asks for. */
  const PlannedSources: seq<string> := ["arXiv", "Crossref", "Semantic Scholar"]

  /** The names of the developer's sources, in the order it queries them. */
  const DeveloperSources: seq<string> := ["arXiv", "Crossref", "Semantic Scholar"]

  /** `ArchitectAgent.build_plan`: the request as given, over the three
      planned sources. */
  function BuildPlan(query: string, runDate: Date, limit: int): (plan: ArchitectPlan)
    ensures plan.query == query && plan.runDate == runDate && plan.limit == limit
    ensures forall name :: name in DeveloperSources ==> name in plan.sources
  {
    ArchitectPlan(query, runDate, limit, PlannedSources)
  }

  // ---------------------------------------------------------------------
  // `DeveloperAgent.fetch_papers`

  /** The papers gathered before deduplication: the results of the sources
      the plan names, concatenated in source order. */
  function Gathered(names: seq<string>, found: seq<seq<Paper>>, selected: seq<string>): seq<Paper>
    requires |found| == |names|
  {
    if names == [] then []
    else
      Gathered(names[..|names| - 1], found[..|found| - 1], selected)
      + (if names[|names| - 1] in selected then found[|found| - 1] else [])
  }

  /** All results concatenated. */
  function Flatten(found: seq<seq<Paper>>): seq<Paper> {
    if found == [] then [] else Flatten(found[..|found| - 1]) + found[|found| - 1]
  }

  /** `fetch_papers`: `found[i]` is what the developer's `i`-th source
      returned for the plan's query and date. */
  method FetchPapers(plan: ArchitectPlan, found: seq<seq<Paper>>) returns (papers: seq<Paper>)
    requires |found| == |DeveloperSources|
    ensures papers == Dedup(Gathered(DeveloperSources, found, plan.sources))
  {
    var gathered: seq<Paper> := [];
    var i := 0;
    while i < |DeveloperSources|
      invariant 0 <= i <= |DeveloperSources|
      invariant gathered == Gathered(DeveloperSources[..i], found[..i], plan.sources)
    {
      assert DeveloperSources[..i + 1][..i] == DeveloperSources[..i];
      assert found[..i + 1][..i] == found[..i];
      if DeveloperSources[i] !in plan.sources {
        i := i + 1;
        continue;
      }
      gathered := gathered + found[i];
      i := i + 1;
    }
    assert DeveloperSources[..i] == DeveloperSources && found[..i] == found;
    papers := UniqueByUrl(gathered);
  }

  /** Every gathered paper comes from a source the plan selects. */
  lemma {:induction false} GatheredFromSelected(names: seq<string>, found: seq<seq<Paper>>, selected: seq<string>, p: Paper)
    requires |found| == |names|
    requires p in Gathered(names, found, selected)
    ensures exists i :: 0 <= i < |names| && names[i] in selected && p in found[i]
  {
    var n := |names| - 1;
    var init := Gathered(names[..n], found[..n], selected);
    if p in init {
      GatheredFromSelected(names[..n], found[..n], selected, p);
      var i :| 0 <= i < n && names[..n][i] in selected && p in found[..n][i];
      assert names[i] == names[..n][i] && found[i] == found[..n][i];
    } else {
      assert names[n] in selected && p in found[n];
    }
  }

  /** When every source is selected, nothing is filtered out. */
  lemma {:induction false} GatheredAll(names: seq<string>, found: seq<seq<Paper>>, selected: seq<string>)
    requires |found| == |names|
    requires forall i :: 0 <= i < |names| ==> names[i] in selected
    ensures Gathered(names, found, selected) == Flatten(found)
  {
    if names != [] {
      var n := |names| - 1;
      assert forall i :: 0 <= i < n ==> names[..n][i] == names[i];
      GatheredAll(names[..n], found[..n], selected);
    }
  }

  lemma {:induction false} DedupMember(s: seq<Paper>, p: Paper)
    requires p in Dedup(s)
    ensures p in s
  {
    var k :| 0 <= k < |Dedup(s)| && Dedup(s)[k] == p;
    DedupKeepsFirst(s, k);
  }

  /** What the fetched list is: papers of selected sources only, no URL
      twice, every gathered URL present. */
  lemma FetchedPapers(plan: ArchitectPlan, found: seq<seq<Paper>>)
    requires |found| == |DeveloperSources|
    ensures var papers := Dedup(Gathered(DeveloperSources, found, plan.sources));
      && (forall p :: p in papers ==> exists i :: 0 <= i < |found| && DeveloperSources[i] in plan.sources && p in found[i])
      && DistinctUrls(papers)
      && Urls(papers) == Urls(Gathered(DeveloperSources, found, plan.sources))
  {
    var gathered := Gathered(DeveloperSources, found, plan.sources);
    forall p | p in Dedup(gathered)
      ensures exists i :: 0 <= i < |found| && DeveloperSources[i] in plan.sources && p in found[i]
    {
      DedupMember(gathered, p);
      GatheredFromSelected(DeveloperSources, found, plan.sources, p);
    }
    DedupDistinct(gathered);
    DedupUrls(gathered);
  }

  /** A plan from `build_plan` selects every source of the developer, so the
      fetch deduplicates everything found. */
  lemma PlanFetchesAll(query: string, runDate: Date, limit: int, found: seq<seq<Paper>>)
    requires |found| == |DeveloperSources|
    ensures Gathered(DeveloperSources, found, BuildPlan(query, runDate, limit).sources) == Flatten(found)
  {
    var plan := BuildPlan(query, runDate, limit);
    forall i | 0 <= i < |DeveloperSources| ensures DeveloperSources[i] in plan.sources {
      assert DeveloperSources[i] in DeveloperSources;
    }
    GatheredAll(DeveloperSources, found, plan.sources);
  }

  // ---------------------------------------------------------------------
  // `AnalystAgent.analyze`

  /** `zip(ranked, summaries)`: as many items as the shorter list, item `i`
      carrying the paper and score of `ranked[i]` and summary `i`. */
  function Pair(ranked: seq<DigestItem>, summaries: seq<string>): (items: seq<DigestItem>)
    ensures |items| == if |ranked| < |summaries| then |ranked| else |summaries|
    ensures forall i :: 0 <= i < |items| ==>
      items[i].paper == ranked[i].paper && items[i].score == ranked[i].score && items[i].highlights == summaries[i]
  {
    if ranked == [] || summaries == [] then []
    else [DigestItem(ranked[0].paper, ranked[0].score, summaries[0])] + Pair(ranked[1..], summaries[1..])
  }

  /** The `zip` loop of `analyze`: one item per ranked paper that has a
      summary. */
  method PairItems(ranked: seq<DigestItem>, summaries: seq<string>) returns (items: seq<DigestItem>)
    ensures items == Pair(ranked, summaries)
  {
    items := [];
    var i := 0;
    while i < |ranked| && i < |summaries|
      invariant 0 <= i <= |ranked| && i <= |summaries|
      invariant |items| == i
      invariant forall k :: 0 <= k < i ==> items[k] == DigestItem(ranked[k].paper, ranked[k].score, summaries[k])
    {
      items := items + [DigestItem(ranked[i].paper, ranked[i].score, summaries[i])];
      i := i + 1;
    }
    ghost var paired := Pair(ranked, summaries);
    assert |items| == |paired|;
    assert forall k :: 0 <= k < |items| ==> items[k] == paired[k];
  }

  /** `analyze`: ranks the papers with the plan's query and limit, then pairs
      them with the language model's `summaries`; `recommendations` is the
      model's recommendation text. */
  method Analyze(plan: ArchitectPlan, papers: seq<Paper>, summaries: seq<string>, recommendations: string,
                 sqrt: Numerics.SqrtFn)
    returns (report: DigestReport)
    ensures report.query == plan.query && report.runDate == plan.runDate
    ensures report.items == Pair(Ranker.Ranked(plan.query, papers, plan.limit, sqrt), summaries)
    ensures report.recommendations == recommendations
  {
    var ranked := Ranker.RankPapers(plan.query, papers, plan.limit, sqrt);
    var items := PairItems(ranked, summaries);
    report := DigestReport(plan.query, plan.runDate, items, recommendations);
  }

  /** The report keeps the ranking's order, scores never increasing along
      it, and each item is an input paper with its own score. */
  lemma AnalyzedSorted(query: string, papers: seq<Paper>, limit: int, summaries: seq<string>, sqrt: Numerics.SqrtFn)
    ensures Sorting.SortedDesc(Pair(Ranker.Ranked(query, papers, limit, sqrt), summaries), Ranker.ScoreOf)
    ensures forall k :: 0 <= k < |Pair(Ranker.Ranked(query, papers, limit, sqrt), summaries)| ==>
      var item := Pair(Ranker.Ranked(query, papers, limit, sqrt), summaries)[k];
      item.paper in papers && item.score == Ranker.ScorePaper(query, item.paper, sqrt)
  {
    var r := Ranker.Ranked(query, papers, limit, sqrt);
    var items := Pair(r, summaries);
    Ranker.RankedProperties(query, papers, limit, sqrt);
    forall i, j | 0 <= i < j < |items| ensures Ranker.ScoreOf(items[i]) >= Ranker.ScoreOf(items[j]) {
      assert Ranker.ScoreOf(r[i]) >= Ranker.ScoreOf(r[j]);
    }
    forall k | 0 <= k < |items|
      ensures items[k].paper in papers && items[k].score == Ranker.ScorePaper(query, items[k].paper, sqrt)
    {
      assert Ranker.IsScoredPaper(r[k], query, papers, sqrt);
    }
  }

  // ---------------------------------------------------------------------
  // `TesterAgent.validate`

  const TooFewItems := "Слишком мало статей в подборке."
  const NoSources := "Нет источников в выдаче."
  const MissingUrl := "Есть статьи без URL."

  predicate HasMissingUrl(items: seq<DigestItem>) {
    exists i :: 0 <= i < |items| && items[i].paper.url == []
  }

  /** `validate`: the report's issues, in this order: too few items, no
      sources, an item without a URL. */
  method Validate(report: DigestReport, minItems: int := 3) returns (issues: seq<string>)
    ensures forall s :: s in issues ==> s == TooFewItems || s == NoSources || s == MissingUrl
    ensures TooFewItems in issues <==> |report.items| < minItems
    ensures NoSources in issues <==> report.items == []
    ensures MissingUrl in issues <==> HasMissingUrl(report.items)
    ensures |issues| <= 3
    ensures forall i, j :: 0 <= i < j < |issues| ==> issues[i] != issues[j]
    ensures forall i, j :: 0 <= i < j < |issues| ==> Rank(issues[i]) < Rank(issues[j])
  {
    issues := [];
    if |report.items| < minItems {
      issues := issues + [TooFewItems];
    }
    if TopSources(report.items) == {} {
      issues := issues + [NoSources];
    }
    var missing := AnyMissingUrl(report.items);
    if missing {
      issues := issues + [MissingUrl];
    }
  }

  /** `any(not item.paper.url for item in items)`. */
  method AnyMissingUrl(items: seq<DigestItem>) returns (missing: bool)
    ensures missing <==> HasMissingUrl(items)
  {
    missing := false;
    var i := 0;
    while i < |items|
      invariant 0 <= i <= |items|
      invariant missing <==> exists k :: 0 <= k < i && items[k].paper.url == []
    {
      if items[i].paper.url == [] {
        missing := true;
      }
      i := i + 1;
    }
  }

  /** The position of an issue in the fixed reporting order. */
  function Rank(issue: string): nat {
    if issue == TooFewItems then 0 else if issue == NoSources then 1 else 2
  }
}
