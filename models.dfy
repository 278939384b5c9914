/** The paper records (`papers_digest/models.py`) and first-seen URL
    deduplication. */
module Models {
  import opened Wrappers
  import Text

  /** A calendar date; `IsoFormat` is `date.isoformat()`. */
  datatype Date = Date(year: nat, month: nat, day: nat) {
    function IsoFormat(): string {
      Pad(Text.NatToString(year), 4) + "-" + Pad(Text.NatToString(month), 2) + "-"
      + Pad(Text.NatToString(day), 2)
    }
  }

  function Pad(s: string, width: nat): (r: string)
    ensures |r| == if |s| < width then width else |s|
    decreases width - |s|
  {
    if |s| < width then Pad(['0'] + s, width) else s
  }

  /** One discovered paper. `id` is the source's identifier, which the
      formatter uses to look up summaries. */
  datatype Paper = Paper(
    id: string,
    title: string,
    url: string,
    publishedDate: Date,
    abstractText: Option<string>,
    source: string,
    authors: seq<string>)

  datatype DigestItem = DigestItem(paper: Paper, score: real, highlights: string)

  datatype DigestReport = DigestReport(
    query: string,
    runDate: Date,
    items: seq<DigestItem>,
    recommendations: string)

  /** `DigestReport.top_sources`: the set of sources of the report's papers. */
  function TopSources(items: seq<DigestItem>): (r: set<string>)
    ensures forall i :: 0 <= i < |items| ==> items[i].paper.source in r
    ensures forall src :: src in r ==> exists i :: 0 <= i < |items| && items[i].paper.source == src
    ensures r == {} <==> |items| == 0
  {
    if |items| == 0 then {} else {items[0].paper.source} + TopSources(items[1..])
  }

  // ---------------------------------------------------------------------
  // unique_by_url

  function Urls(s: seq<Paper>): set<string> {
    set i | 0 <= i < |s| :: s[i].url
  }

  /** The papers kept by `unique_by_url`: a paper is kept when no earlier
      paper has the same URL. The empty URL is an ordinary key. */
  function Dedup(s: seq<Paper>): seq<Paper> {
    if s == [] then []
    else
      var init, last := s[..|s| - 1], s[|s| - 1];
      if last.url in Urls(init) then Dedup(init) else Dedup(init) + [last]
  }

  /** `unique_by_url`: one pass with a set of seen URLs. */
  method UniqueByUrl(papers: seq<Paper>) returns (unique: seq<Paper>)
    ensures unique == Dedup(papers)
  {
    var seen: set<string> := {};
    unique := [];
    var i := 0;
    while i < |papers|
      invariant 0 <= i <= |papers|
      invariant seen == Urls(papers[..i])
      invariant unique == Dedup(papers[..i])
    {
      var paper := papers[i];
      assert papers[..i + 1][..i] == papers[..i];
      assert Urls(papers[..i + 1]) == Urls(papers[..i]) + {paper.url} by {
        assert forall k :: 0 <= k < i ==> papers[..i + 1][k] == papers[..i][k];
      }
      if paper.url in seen {
        i := i + 1;
        continue;
      }
      seen := seen + {paper.url};
      unique := unique + [paper];
      i := i + 1;
    }
    assert papers[..|papers|] == papers;
  }

  predicate DistinctUrls(s: seq<Paper>) {
    forall i, j :: 0 <= i < j < |s| ==> s[i].url != s[j].url
  }

  /** `a` is `b` with some elements left out, the rest in their order. */
  predicate IsSubsequence<T(==)>(a: seq<T>, b: seq<T>)
    decreases |b|
  {
    if a == [] then true
    else if b == [] then false
    else if a[|a| - 1] == b[|b| - 1] then IsSubsequence(a[..|a| - 1], b[..|b| - 1])
    else IsSubsequence(a, b[..|b| - 1])
  }

  /** Position of the first paper with URL `u`. */
  function FirstWithUrl(s: seq<Paper>, u: string): (i: nat)
    requires u in Urls(s)
    ensures i < |s| && s[i].url == u
    ensures forall k :: 0 <= k < i ==> s[k].url != u
  {
    if s[0].url == u then 0
    else
      assert u in Urls(s[1..]) by {
        var j :| 0 <= j < |s| && s[j].url == u;
        assert s[1..][j - 1] == s[j];
      }
      1 + FirstWithUrl(s[1..], u)
  }

  lemma UrlsSnoc(s: seq<Paper>, p: Paper)
    ensures Urls(s + [p]) == Urls(s) + {p.url}
  {
    var t := s + [p];
    forall u | u in Urls(t) ensures u in Urls(s) + {p.url} {
      var i :| 0 <= i < |t| && t[i].url == u;
      if i < |s| { assert t[i] == s[i]; }
    }
    forall u | u in Urls(s) + {p.url} ensures u in Urls(t) {
      if u == p.url {
        assert t[|s|].url == u;
      } else {
        var i :| 0 <= i < |s| && s[i].url == u;
        assert t[i] == s[i];
      }
    }
  }

  /** The output keeps every URL of the input and no other. */
  lemma {:induction false} DedupUrls(s: seq<Paper>)
    ensures Urls(Dedup(s)) == Urls(s)
  {
    if s != [] {
      var init, last := s[..|s| - 1], s[|s| - 1];
      DedupUrls(init);
      assert s == init + [last];
      UrlsSnoc(init, last);
      if last.url !in Urls(init) {
        UrlsSnoc(Dedup(init), last);
      }
    }
  }

  /** No two papers of the output share a URL. */
  lemma {:induction false} DedupDistinct(s: seq<Paper>)
    ensures DistinctUrls(Dedup(s))
  {
    if s != [] {
      var init, last := s[..|s| - 1], s[|s| - 1];
      DedupDistinct(init);
      DedupUrls(init);
      if last.url !in Urls(init) {
        var d := Dedup(init);
        forall i | 0 <= i < |d| ensures d[i].url != last.url {
          assert d[i].url in Urls(d);
        }
      }
    }
  }

  /** The output is the input with some papers left out, in input order. */
  lemma {:induction false} DedupSubsequence(s: seq<Paper>)
    ensures IsSubsequence(Dedup(s), s)
  {
    if s != [] {
      var init, last := s[..|s| - 1], s[|s| - 1];
      DedupSubsequence(init);
      if last.url in Urls(init) {
        SubsequenceExtend(Dedup(init), init, last);
      } else {
        var d := Dedup(init) + [last];
        assert d[..|d| - 1] == Dedup(init);
      }
    }
  }

  lemma {:induction false} SubsequenceExtend<T>(a: seq<T>, b: seq<T>, x: T)
    requires IsSubsequence(a, b)
    ensures IsSubsequence(a, b + [x])
    decreases |b|, 1
  {
    var b' := b + [x];
    assert b'[..|b'| - 1] == b;
    if a != [] && a[|a| - 1] == x {
      SubsequenceDropLast(a, b);
    }
  }

  lemma {:induction false} SubsequenceDropLast<T>(a: seq<T>, b: seq<T>)
    requires a != [] && IsSubsequence(a, b)
    ensures IsSubsequence(a[..|a| - 1], b)
    decreases |b|, 0
  {
    var a', b' := a[..|a| - 1], b[..|b| - 1];
    assert b' + [b[|b| - 1]] == b;
    if a[|a| - 1] == b[|b| - 1] {
      SubsequenceExtend(a', b', b[|b| - 1]);
    } else {
      SubsequenceDropLast(a, b');
      SubsequenceExtend(a', b', b[|b| - 1]);
    }
  }

  /** The paper kept for a URL is the first input paper with that URL; in
      particular several papers with the empty URL collapse to the first. */
  lemma {:induction false} DedupKeepsFirst(s: seq<Paper>, k: nat)
    requires k < |Dedup(s)|
    ensures Dedup(s)[k].url in Urls(s)
    ensures Dedup(s)[k] == s[FirstWithUrl(s, Dedup(s)[k].url)]
  {
    var init, last := s[..|s| - 1], s[|s| - 1];
    var d := Dedup(init);
    DedupUrls(init);
    if k < |d| {
      DedupKeepsFirst(init, k);
      var u := d[k].url;
      FirstWithUrlPrefix(init, last, u);
      assert s == init + [last];
    } else {
      assert Dedup(s)[k] == last && last.url !in Urls(init);
      assert s == init + [last];
      UrlsSnoc(init, last);
    }
  }

  lemma FirstWithUrlPrefix(init: seq<Paper>, last: Paper, u: string)
    requires u in Urls(init)
    ensures u in Urls(init + [last]) && FirstWithUrl(init + [last], u) == FirstWithUrl(init, u)
  {
    UrlsSnoc(init, last);
    var s := init + [last];
    var f, g := FirstWithUrl(init, u), FirstWithUrl(s, u);
    assert s[f] == init[f];
  }

  /** Input whose URLs are all distinct is returned unchanged. */
  lemma {:induction false} DedupOfDistinct(s: seq<Paper>)
    requires DistinctUrls(s)
    ensures Dedup(s) == s
  {
    if s != [] {
      var init, last := s[..|s| - 1], s[|s| - 1];
      DedupOfDistinct(init);
      assert s == init + [last];
    }
  }

  /** `unique_by_url` is idempotent. */
  lemma DedupIdempotent(s: seq<Paper>)
    ensures Dedup(Dedup(s)) == Dedup(s)
  {
    DedupDistinct(s);
    DedupOfDistinct(Dedup(s));
  }

  /** Nothing is dropped exactly when the input URLs are all distinct. */
  lemma {:induction false} DedupLengthIffDistinct(s: seq<Paper>)
    ensures |Dedup(s)| <= |s|
    ensures |Dedup(s)| == |s| <==> DistinctUrls(s)
  {
    if s != [] {
      var init, last := s[..|s| - 1], s[|s| - 1];
      DedupLengthIffDistinct(init);
      if DistinctUrls(s) {
        DedupOfDistinct(s);
      } else if last.url !in Urls(init) {
        assert !DistinctUrls(init) by {
          var i, j :| 0 <= i < j < |s| && s[i].url == s[j].url;
          if j == |s| - 1 { assert init[i].url in Urls(init); }
          else { assert init[i].url == init[j].url; }
        }
      }
    }
  }
}
