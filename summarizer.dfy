/** The extractive summariser `SimpleSummarizer.summarize`
    (`papers_digest/summarizer.py`): the first two sentences of the stripped
    abstract, joined by one space, or a fixed fallback text. */
module Summarizer {
  import opened Wrappers
  import opened Text
  import opened Models

  const Fallback := "Summary not available."

  /** `sentences[:2]`. */
  function FirstTwo(sentences: seq<string>): (r: seq<string>)
    ensures |r| == if |sentences| < 2 then |sentences| else 2
    ensures r == sentences[..|r|]
  {
    if |sentences| < 2 then sentences else sentences[..2]
  }

  /** The summary of a paper; a missing abstract counts as the empty one. */
  function Summarize(paper: Paper): (r: string)
    ensures r != []
  {
    var summary := Strip(Join(" ", FirstTwo(SplitSentences(Abstract(paper)))));
    if summary == [] then Fallback else summary
  }

  /** The abstract the summariser reads, stripped. */
  function Abstract(paper: Paper): string {
    Strip(paper.abstractText.GetOr(""))
  }

  /** A missing abstract, or one that is only whitespace, gives the fallback. */
  lemma BlankFallback(paper: Paper)
    requires paper.abstractText.None? || AllSpace(paper.abstractText.value)
    ensures Summarize(paper) == Fallback
  {
    StripEmptyIffAllSpace(paper.abstractText.GetOr(""));
    assert Abstract(paper) == [];
  }

  /** The first sentence of a non-blank abstract is non-empty and ends in a
      non-space character; when a second sentence follows, it ends in the
      `.`, `!` or `?` that closed it. */
  lemma FirstSentence(s: string)
    requires s != [] && !IsSpace(s[0]) && !IsSpace(s[|s| - 1])
    ensures var p := SplitSentences(s)[0];
      p != [] && p == s[..|p|] && !IsSpace(p[0]) && !IsSpace(p[|p| - 1])
    ensures |SplitSentences(s)| > 1 ==> IsSentenceEnd(SplitSentences(s)[0][|SplitSentences(s)[0]| - 1])
  {
    var i := FirstBoundary(s, 1);
    if i < |s| {
      assert BoundaryAt(s, i);
      assert SplitSentences(s)[0] == s[..i];
    }
  }

  /** Right-stripping a text that starts with a piece ending in a non-space
      character keeps that piece. */
  lemma RStripKeepsPrefix(p: string, x: string)
    requires p != [] && !IsSpace(p[|p| - 1])
    ensures var r := RStrip(p + x); |p| <= |r| && r[..|p|] == p
  {
    RStripSpec(p + x);
    assert !IsSpace((p + x)[|p| - 1]);
  }

  /** The first two sentences of a stripped, non-empty text, joined and
      stripped, begin with its first sentence. */
  lemma {:induction false} JoinedLeads(s: string)
    requires s != [] && !IsSpace(s[0]) && !IsSpace(s[|s| - 1])
    ensures var p := SplitSentences(s)[0];
      var r := Strip(Join(" ", FirstTwo(SplitSentences(s))));
      p != [] && |p| <= |r| && r[..|p|] == p && s[..|p|] == p
  {
    FirstSentence(s);
    var parts := SplitSentences(s);
    var p := parts[0];
    var joined := Join(" ", FirstTwo(parts));
    var rest := joined[|p|..];
    if |parts| == 1 {
      assert joined == p;
    } else {
      assert joined == p + " " + parts[1];
    }
    assert joined == p + rest;
    RStripKeepsPrefix(p, rest);
    assert LStrip(joined) == joined;
  }

  /** On a non-blank abstract the summary is never the fallback: it begins
      with the abstract's first sentence, which begins the stripped abstract. */
  lemma {:induction false} LeadsWithFirstSentence(paper: Paper)
    requires !AllSpace(paper.abstractText.GetOr(""))
    ensures var p := SplitSentences(Abstract(paper))[0];
      var r := Summarize(paper);
      p != [] && |p| <= |r| && r[..|p|] == p && Abstract(paper)[..|p|] == p
  {
    StripEmptyIffAllSpace(paper.abstractText.GetOr(""));
    JoinedLeads(Abstract(paper));
  }

  /** An abstract without a sentence boundary is summarised as the stripped
      abstract itself. */
  lemma NoBoundaryUnchanged(paper: Paper)
    requires !AllSpace(paper.abstractText.GetOr(""))
    requires FirstBoundary(Abstract(paper), 1) == |Abstract(paper)|
    ensures Summarize(paper) == Abstract(paper)
  {
    var s := Abstract(paper);
    StripEmptyIffAllSpace(paper.abstractText.GetOr(""));
    assert SplitSentences(s) == [s];
    StripNoop(s);
  }

  lemma SumLengthsFirstTwo(parts: seq<string>)
    ensures SumLengths(FirstTwo(parts)) <= SumLengths(parts)
  {
    if |parts| >= 2 {
      var t := FirstTwo(parts);
      assert SumLengths(t[1..][1..]) == 0;
      assert SumLengths(t) == |parts[0]| + |parts[1]|;
      assert SumLengths(parts) == |parts[0]| + |parts[1]| + SumLengths(parts[1..][1..]);
    }
  }

  /** On a non-blank abstract the summary is no longer than the stripped
      abstract: the sentences it keeps are pieces of the abstract, and the
      single space joining them replaces at least one whitespace character. */
  lemma {:induction false} NoLongerThanAbstract(paper: Paper)
    requires !AllSpace(paper.abstractText.GetOr(""))
    ensures |Summarize(paper)| <= |Abstract(paper)|
  {
    var s := Abstract(paper);
    var parts := SplitSentences(s);
    var t := FirstTwo(parts);
    var joined := Join(" ", t);
    StripEmptyIffAllSpace(paper.abstractText.GetOr(""));
    JoinedLeads(s);
    SplitSentencesLength(s);
    SumLengthsFirstTwo(parts);
    JoinLength(" ", t);
    assert |joined| <= |s|;
    assert |Strip(joined)| <= |s|;
  }
}
