/** Telegram MarkdownV2 output (`papers_digest/formatter.py`): escaping of
    the reserved characters, and the digest laid out as blocks packed
    greedily into messages of at most 4000 characters. */
module Formatter {
  import Text
  import opened Models

  // ---------------------------------------------------------------------
  // _escape_markdown_v2

  /** The characters MarkdownV2 reserves, in the order the escaping loop
      visits them. The backslash is escaped before them. */
  const Reserved: string := "_*[]()~`>#+-=|{}.!"

  /** Membership in `Reserved`, spelled out character by character. */
  predicate IsReservedChar(c: char) {
    c == '_' || c == '*' || c == '[' || c == ']' || c == '(' || c == ')' || c == '~' || c == '`' || c == '>'
    || c == '#' || c == '+' || c == '-' || c == '=' || c == '|' || c == '{' || c == '}' || c == '.' || c == '!'
  }

  lemma ReservedChars(c: char)
    ensures c in Reserved <==> IsReservedChar(c)
  {
    if IsReservedChar(c) {
      var i := if c == '_' then 0 else if c == '*' then 1 else if c == '[' then 2 else if c == ']' then 3
        else if c == '(' then 4 else if c == ')' then 5 else if c == '~' then 6 else if c == '`' then 7
        else if c == '>' then 8 else if c == '#' then 9 else if c == '+' then 10 else if c == '-' then 11
        else if c == '=' then 12 else if c == '|' then 13 else if c == '{' then 14 else if c == '}' then 15
        else if c == '.' then 16 else 17;
      assert Reserved[i] == c;
    }
  }

  predicate IsSpecial(c: char) { c == '\\' || IsReservedChar(c) }

  /** Number of characters of `s` that escaping doubles. */
  function Specials(s: string): nat {
    if s == [] then 0 else (if IsSpecial(s[0]) then 1 else 0) + Specials(s[1..])
  }

  /** The escaped text: a backslash before every reserved character and
      before every backslash; it grows by one character per such character. */
  function Escape(s: string): (r: string)
    ensures |r| == |s| + Specials(s)
  {
    if s == [] then [] else (if IsSpecial(s[0]) then ['\\', s[0]] else [s[0]]) + Escape(s[1..])
  }

  /** Drops the backslash of every escape pair. */
  function Unescape(t: string): string {
    if t == [] then []
    else if t[0] == '\\' && |t| >= 2 then [t[1]] + Unescape(t[2..])
    else [t[0]] + Unescape(t[1..])
  }

  /** Text every special character of which is escaped: read from the left,
      a backslash always starts a pair with a special character, and a
      special character never stands alone. */
  predicate Safe(t: string) {
    if t == [] then true
    else if t[0] == '\\' then |t| >= 2 && IsSpecial(t[1]) && Safe(t[2..])
    else !IsSpecial(t[0]) && Safe(t[1..])
  }

  /** Removing the backslash of each escape pair gives the input back. */
  lemma {:induction false} EscapeRoundTrip(s: string)
    ensures Unescape(Escape(s)) == s
  {
    if s != [] {
      EscapeRoundTrip(s[1..]);
      var e := Escape(s);
      if IsSpecial(s[0]) {
        assert e[2..] == Escape(s[1..]);
      } else {
        assert e[1..] == Escape(s[1..]);
      }
    }
  }

  /** Different texts never escape to the same text. */
  lemma EscapeInjective(a: string, b: string)
    requires Escape(a) == Escape(b)
    ensures a == b
  {
    EscapeRoundTrip(a);
    EscapeRoundTrip(b);
  }

  /** Escaped text is safe to send. */
  lemma {:induction false} EscapeSafe(s: string)
    ensures Safe(Escape(s))
  {
    if s != [] {
      EscapeSafe(s[1..]);
      var e := Escape(s);
      if IsSpecial(s[0]) {
        assert e[2..] == Escape(s[1..]);
      } else {
        assert e[1..] == Escape(s[1..]);
      }
    }
  }

  /** Every safe text is the escape of some text: its unescape. */
  lemma {:induction false} SafeIsEscaped(t: string)
    requires Safe(t)
    ensures Escape(Unescape(t)) == t
  {
    if t != [] {
      if t[0] == '\\' {
        SafeIsEscaped(t[2..]);
        assert t == [t[0], t[1]] + t[2..];
      } else {
        SafeIsEscaped(t[1..]);
        assert t == [t[0]] + t[1..];
      }
    }
  }

  /** `s.replace(c, rep)` for a one-character pattern. */
  function Replace(s: string, c: char, rep: string): string {
    if s == [] then [] else (if s[0] == c then rep else [s[0]]) + Replace(s[1..], c, rep)
  }

  /** The text after the backslash pass and the first `k` passes of the loop. */
  function EscapedUpTo(s: string, k: nat): string
    requires k <= |Reserved|
  {
    if s == [] then []
    else (if s[0] == '\\' || s[0] in Reserved[..k] then ['\\', s[0]] else [s[0]]) + EscapedUpTo(s[1..], k)
  }

  lemma {:induction false} ReplaceAppend(a: string, b: string, c: char, rep: string)
    ensures Replace(a + b, c, rep) == Replace(a, c, rep) + Replace(b, c, rep)
  {
    if a != [] {
      assert (a + b)[1..] == a[1..] + b;
      ReplaceAppend(a[1..], b, c, rep);
    } else {
      assert a + b == b;
    }
  }

  lemma ReservedDistinct()
    ensures forall i, j :: 0 <= i < j < |Reserved| ==> Reserved[i] != Reserved[j]
    ensures '\\' !in Reserved
  {
  }

  lemma {:induction false} EscapedFirstPass(s: string)
    ensures Replace(s, '\\', "\\\\") == EscapedUpTo(s, 0)
  {
    if s != [] { EscapedFirstPass(s[1..]); }
  }

  /** Pass `k` escapes `Reserved[k]` and nothing else: no earlier pass left
      that character unpaired, and the backslashes it adds are not
      reserved. */
  lemma {:induction false} EscapedStep(s: string, k: nat)
    requires k < |Reserved|
    ensures Replace(EscapedUpTo(s, k), Reserved[k], ['\\', Reserved[k]]) == EscapedUpTo(s, k + 1)
  {
    if s != [] {
      var c := Reserved[k];
      ReservedDistinct();
      var piece := if s[0] == '\\' || s[0] in Reserved[..k] then ['\\', s[0]] else [s[0]];
      ReplaceAppend(piece, EscapedUpTo(s[1..], k), c, ['\\', c]);
      EscapedStep(s[1..], k);
      assert Reserved[..k + 1] == Reserved[..k] + [c];
      if s[0] in Reserved[..k] {
        var i :| 0 <= i < k && Reserved[i] == s[0];
        assert s[0] != c;
        assert Replace(piece, c, ['\\', c]) == ['\\', s[0]];
      } else if s[0] == c {
        assert Replace(piece, c, ['\\', c]) == ['\\', c];
      } else if s[0] == '\\' {
        assert Replace(piece, c, ['\\', c]) == piece;
      } else {
        assert Replace(piece, c, ['\\', c]) == piece;
      }
    }
  }

  lemma {:induction false} EscapedAll(s: string)
    ensures EscapedUpTo(s, |Reserved|) == Escape(s)
  {
    if s != [] {
      EscapedAll(s[1..]);
      assert Reserved[..|Reserved|] == Reserved;
      ReservedChars(s[0]);
    }
  }

  /** `_escape_markdown_v2`: replaces every backslash by two, then each
      reserved character by a backslash and itself, one character at a
      time. */
  method EscapeMarkdownV2(text: string) returns (escaped: string)
    ensures escaped == Escape(text)
  {
    escaped := Replace(text, '\\', "\\\\");
    EscapedFirstPass(text);
    for k := 0 to |Reserved|
      invariant escaped == EscapedUpTo(text, k)
    {
      EscapedStep(text, k);
      escaped := Replace(escaped, Reserved[k], ['\\', Reserved[k]]);
    }
    EscapedAll(text);
  }

  // ---------------------------------------------------------------------
  // format_digest

  /** The length above which the next block starts a new message. */
  const Budget: nat := 4000

  const NoSummary: string := "Summary not available."

  /** The fixed texts of the digest, before escaping. */
  const DigestTitle: string := "Papers digest for"
  const QueryLabel: string := "Query:"
  const TopPapersLabel: string := "Top papers"
  const SourceLabel: string := "Source:"
  const AuthorsLabel: string := "Authors:"
  const LinkLabel: string := "Link:"
  const SummaryLabel: string := "Summary:"
  const RecommendationsLabel: string := "Recommendations"
  const BulletMark: string := "\U{2022}"
  const NoPapers: string := "No papers matched today."



  /** Escaping works character by character, so it distributes over
      concatenation. */
  lemma {:induction false} EscapeAppend(a: string, b: string)
    ensures Escape(a + b) == Escape(a) + Escape(b)
  {
    if a == [] {
      assert a + b == b;
    } else {
      assert (a + b)[1..] == a[1..] + b;
      EscapeAppend(a[1..], b);
    }
  }

  /** Text without special characters is left as it is. */
  lemma {:induction false} EscapePlain(s: string)
    requires forall i :: 0 <= i < |s| ==> !IsSpecial(s[i])
    ensures Escape(s) == s
  {
    if s != [] {
      EscapePlain(s[1..]);
    }
  }

  /** The labels of the header and the recommendations, and those of an
      entry: constant texts without special characters. */
  const HeadingLabels: seq<string> := [DigestTitle, QueryLabel, TopPapersLabel, RecommendationsLabel, BulletMark]
  const EntryLabels: seq<string> := [SourceLabel, AuthorsLabel, LinkLabel, SummaryLabel]

  /** Escaping leaves the header and recommendations labels as they are, so
      the digest shows them unescaped. */
  lemma HeadingLabelsEscaped(s: string)
    requires s in HeadingLabels
    ensures Escape(s) == s
  {
    EscapePlain(s);
  }

  /** Escaping leaves the labels of an entry as they are. */
  lemma EntryLabelsEscaped(s: string)
    requires s in EntryLabels
    ensures Escape(s) == s
  {
    EscapePlain(s);
  }

  /** `summaries.get(paper.paper_id, "Summary not available.")`. */
  function SummaryFor(paper: Paper, summaries: map<string, string>): string {
    if paper.id in summaries then summaries[paper.id] else NoSummary
  }

  /** The authors joined by `", "`, or `Unknown authors` when there are none. */
  function AuthorsText(paper: Paper): string {
    if paper.authors != [] then Text.Join(", ", paper.authors) else "Unknown authors"
  }

  /** The title and query lines every digest starts with. */
  function Header(query: string, date: Date): string {
    "*" + DigestTitle + " " + Escape(date.IsoFormat()) + "*\n\n"
    + QueryLabel + " *" + Escape(query) + "*\n\n"
  }

  /** The header followed by the `Top papers` heading: the first block. */
  function TopHeader(query: string, date: Date): string {
    Header(query, date) + "*" + TopPapersLabel + "*\n\n"
  }

  /** The block of the paper numbered `idx`; the Link line is present only
      for a non-empty URL. */
  function Entry(idx: nat, paper: Paper, summaries: map<string, string>): string {
    Text.NatToString(idx) + "\\. *" + Escape(paper.title) + "*\n"
    + "   " + SourceLabel + " " + Escape(paper.source) + "\n"
    + "   " + AuthorsLabel + " " + Escape(AuthorsText(paper)) + "\n"
    + (if paper.url != "" then "   " + LinkLabel + " " + Escape(paper.url) + "\n" else "")
    + "   " + SummaryLabel + " " + Escape(SummaryFor(paper, summaries)) + "\n\n"
  }

  const RecommendationsHeading: string := "\n*" + RecommendationsLabel + "*\n\n"

  /** The recommendations heading and one bullet line per item. */
  function RecommendationsBlock(items: seq<string>): string {
    if items == [] then RecommendationsHeading
    else RecommendationsBlock(items[..|items| - 1]) + BulletMark + " " + Escape(items[|items| - 1]) + "\n"
  }

  /** The layout of the entry of a paper given its number. */
  function Layout(summaries: map<string, string>): (nat, Paper) -> string {
    (idx: nat, paper: Paper) => Entry(idx, paper, summaries)
  }

  /** The entry blocks, numbered from 1 in input order. */
  function Entries(papers: seq<Paper>, layout: (nat, Paper) -> string): seq<string> {
    seq(|papers|, i requires 0 <= i < |papers| => layout(i + 1, papers[i]))
  }

  /** The blocks of a digest with papers: the header, the entries, and the
      recommendations when there are any. */
  function Blocks(query: string, date: Date, papers: seq<Paper>, summaries: map<string, string>,
                  recommendations: seq<string>): seq<string>
  {
    [TopHeader(query, date)]
    + Entries(papers, Layout(summaries))
    + (if recommendations == [] then [] else [RecommendationsBlock(recommendations)])
  }

  /** Where the parts of a block list sit: the first block, then the
      entries from position 1. */
  lemma BlockIndex(first: string, papers: seq<Paper>, layout: (nat, Paper) -> string, tail: seq<string>, i: nat)
    requires i < |papers|
    ensures ([first] + Entries(papers, layout) + tail)[i + 1] == layout(i + 1, papers[i])
  {
    assert ([first] + Entries(papers, layout) + tail)[i + 1] == Entries(papers, layout)[i];
  }

  /** Greedy packing: each block joins the current group unless the two
      together exceed the budget, in which case it starts a new group. The
      last group is the one still being filled. */
  function Groups(blocks: seq<string>): (g: seq<string>)
    requires blocks != []
    ensures |g| >= 1
  {
    if |blocks| == 1 then [blocks[0]]
    else
      var prev := Groups(blocks[..|blocks| - 1]);
      var cur, x := prev[|prev| - 1], blocks[|blocks| - 1];
      if |cur| + |x| > Budget then prev + [x] else prev[..|prev| - 1] + [cur + x]
  }

  /** A message as sent: the group with its trailing whitespace removed. */
  function Trimmed(group: string): string {
    Text.RStrip(group)
  }

  function RStripAll(groups: seq<string>): seq<string> {
    seq(|groups|, i requires 0 <= i < |groups| => Trimmed(groups[i]))
  }

  /** The messages sent for the groups: each one right-stripped, the last
      only when not blank, and the first block alone should none remain. */
  function Finish(groups: seq<string>, first: string): seq<string>
    requires groups != []
  {
    var last := groups[|groups| - 1];
    var msgs := RStripAll(groups[..|groups| - 1]) + (if Text.Strip(last) != "" then [Trimmed(last)] else []);
    if msgs != [] then msgs else [first]
  }

  /** The result of `format_digest`. */
  function Digest(query: string, date: Date, papers: seq<Paper>, summaries: map<string, string>,
                  recommendations: seq<string>): seq<string>
  {
    if papers == [] then [Header(query, date) + Escape(NoPapers)]
    else
      var blocks := Blocks(query, date, papers, summaries, recommendations);
      Finish(Groups(blocks), blocks[0])
  }

  /** One step of the packing loop: the messages sent so far and the
      message being filled, before and after block `n`. */
  lemma GroupsStep(blocks: seq<string>, n: nat, messages: seq<string>, current: string)
    requires 1 <= n < |blocks|
    requires var g := Groups(blocks[..n]); messages == RStripAll(g[..|g| - 1]) && current == g[|g| - 1]
    ensures var g := Groups(blocks[..n + 1]);
      if |current| + |blocks[n]| > Budget
      then messages + [Trimmed(current)] == RStripAll(g[..|g| - 1]) && blocks[n] == g[|g| - 1]
      else messages == RStripAll(g[..|g| - 1]) && current + blocks[n] == g[|g| - 1]
  {
    var g := Groups(blocks[..n]);
    assert blocks[..n + 1][..n] == blocks[..n];
    var g' := Groups(blocks[..n + 1]);
    if |current| + |blocks[n]| > Budget {
      assert g'[..|g'| - 1] == g;
      assert g == g[..|g| - 1] + [current];
    } else {
      assert g'[..|g'| - 1] == g[..|g| - 1];
    }
  }

  /** The packing step as the loop writes it: closing the message drops the
      text being filled, which then starts empty. */
  lemma PackStep(blocks: seq<string>, n: nat, before: seq<string>, open: string,
                 messages: seq<string>, current: string)
    requires 1 <= n < |blocks|
    requires var g := Groups(blocks[..n]); before == RStripAll(g[..|g| - 1]) && open == g[|g| - 1]
    requires var wide := |open| + |blocks[n]| > Budget;
      messages == (if wide then before + [Trimmed(open)] else before)
      && current == (if wide then "" else open) + blocks[n]
    ensures var g := Groups(blocks[..n + 1]);
      messages == RStripAll(g[..|g| - 1]) && current == g[|g| - 1]
  {
    GroupsStep(blocks, n, before, open);
    assert "" + blocks[n] == blocks[n];
  }

  /** The recommendations text: the heading, then a bullet line per item in
      order. */
  method RecommendationsText(items: seq<string>) returns (text: string)
    ensures text == RecommendationsBlock(items)
  {
    text := RecommendationsHeading;
    for j := 0 to |items|
      invariant text == RecommendationsBlock(items[..j])
    {
      assert items[..j + 1][..j] == items[..j];
      text := text + BulletMark + " " + Escape(items[j]) + "\n";
    }
    assert items[..|items|] == items;
  }

  /** After the last block, flushing the message being filled when it is not
      blank, and falling back to the first block, gives the finished
      messages. */
  lemma FinishFlush(blocks: seq<string>, messages: seq<string>, current: string)
    requires blocks != []
    requires var g := Groups(blocks); messages == RStripAll(g[..|g| - 1]) && current == g[|g| - 1]
    ensures var sent := messages + (if Text.Strip(current) != "" then [Trimmed(current)] else []);
      Finish(Groups(blocks), blocks[0]) == if sent != [] then sent else [blocks[0]]
  {
  }

  /** The entry loop of `format_digest`: each entry joins the message being
      filled or, when the two would pass the budget, closes it and starts
      the next. */
  method PackEntries(header: string, papers: seq<Paper>, layout: (nat, Paper) -> string,
                     ghost blocks: seq<string>) returns (messages: seq<string>, current: string)
    requires |blocks| > |papers| && blocks[0] == header
    requires forall i :: 0 <= i < |papers| ==> blocks[i + 1] == layout(i + 1, papers[i])
    ensures var g := Groups(blocks[..|papers| + 1]);
      messages == RStripAll(g[..|g| - 1]) && current == g[|g| - 1]
  {
    messages := [];
    current := header;
    assert blocks[..1] == [header];
    for i := 0 to |papers|
      invariant var g := Groups(blocks[..i + 1]);
        messages == RStripAll(g[..|g| - 1]) && current == g[|g| - 1]
    {
      var entry := layout(i + 1, papers[i]);
      ghost var before, open := messages, current;
      if |current| + |entry| > 4000 {
        messages := messages + [Trimmed(current)];
        current := "";
      }
      current := current + entry;
      PackStep(blocks, i + 1, before, open, messages, current);
    }
  }

  /** The rest of `format_digest` once there are papers: the entry loop,
      then the recommendations joining the last message or starting a new
      one; at the end a non-blank message is flushed, and the header alone
      is sent should nothing have been. */
  method PackBlocks(header: string, papers: seq<Paper>, layout: (nat, Paper) -> string,
                    recommendations: seq<string>, ghost blocks: seq<string>) returns (messages: seq<string>)
    requires |blocks| == 1 + |papers| + (if recommendations == [] then 0 else 1)
    requires blocks[0] == header
    requires forall i :: 0 <= i < |papers| ==> blocks[i + 1] == layout(i + 1, papers[i])
    requires recommendations != [] ==> blocks[|blocks| - 1] == RecommendationsBlock(recommendations)
    ensures messages == Finish(Groups(blocks), header)
  {
    var current;
    messages, current := PackEntries(header, papers, layout, blocks);
    if recommendations != [] {
      var text := RecommendationsText(recommendations);
      GroupsStep(blocks, |papers| + 1, messages, current);
      if |current| + |text| > 4000 {
        messages := messages + [Trimmed(current)];
        current := text;
      } else {
        current := current + text;
      }
    }
    assert blocks[..|blocks|] == blocks;
    FinishFlush(blocks, messages, current);
    if Text.Strip(current) != "" {
      messages := messages + [Trimmed(current)];
    }
    if messages == [] {
      messages := [header];
    }
  }

  /** `format_digest`: the header and the no-papers sentence when there are
      no papers; otherwise the header with the `Top papers` heading followed
      by the packing loop. */
  method FormatDigest(query: string, date: Date, papers: seq<Paper>, summaries: map<string, string>,
                      recommendations: seq<string>) returns (messages: seq<string>)
    ensures messages == Digest(query, date, papers, summaries, recommendations)
  {
    var header := Header(query, date);
    if papers == [] {
      messages := [header + Escape(NoPapers)];
      return;
    }
    header := header + "*" + TopPapersLabel + "*\n\n";
    var layout := Layout(summaries);
    ghost var entries := Entries(papers, layout);
    ghost var tail := if recommendations == [] then [] else [RecommendationsBlock(recommendations)];
    ghost var blocks := [header] + entries + tail;
    assert blocks == Blocks(query, date, papers, summaries, recommendations);
    forall i | 0 <= i < |papers| ensures blocks[i + 1] == layout(i + 1, papers[i]) {
      BlockIndex(header, papers, layout, tail, i);
    }
    messages := PackBlocks(header, papers, layout, recommendations, blocks);
    assert Blocks(query, date, papers, summaries, recommendations)[0] == header;
  }

  // ---------------------------------------------------------------------
  // Properties of the packing.

  /** The text of a list of blocks or messages, one after the other. */
  function Concat(parts: seq<string>): string {
    if parts == [] then [] else Concat(parts[..|parts| - 1]) + parts[|parts| - 1]
  }

  lemma ConcatSnoc(parts: seq<string>, x: string)
    ensures Concat(parts + [x]) == Concat(parts) + x
  {
    assert (parts + [x])[..|parts|] == parts;
  }

  /** Packing neither loses, repeats nor reorders text: the groups put
      together are the blocks put together. */
  lemma {:induction false} GroupsConcat(blocks: seq<string>)
    requires blocks != []
    ensures Concat(Groups(blocks)) == Concat(blocks)
  {
    var n := |blocks|;
    if n == 1 {
      assert Concat(blocks) == Concat([]) + blocks[0];
      assert Concat([blocks[0]]) == Concat([]) + blocks[0];
    } else {
      var init, x := blocks[..n - 1], blocks[n - 1];
      assert blocks == init + [x];
      ConcatSnoc(init, x);
      GroupsConcat(init);
      var prev := Groups(init);
      var m := |prev|;
      var cur := prev[m - 1];
      if |cur| + |x| > Budget {
        ConcatSnoc(prev, x);
      } else {
        var rest := prev[..m - 1];
        assert prev == rest + [cur];
        ConcatSnoc(rest, cur);
        ConcatSnoc(rest, cur + x);
      }
    }
  }

  /** A group over the budget is a single block: blocks are only put
      together while they fit. */
  lemma {:induction false} GroupsFit(blocks: seq<string>)
    requires blocks != []
    ensures forall j :: 0 <= j < |Groups(blocks)| ==> |Groups(blocks)[j]| <= Budget || Groups(blocks)[j] in blocks
  {
    var n := |blocks|;
    if n > 1 {
      var init, x := blocks[..n - 1], blocks[n - 1];
      GroupsFit(init);
      var prev := Groups(init);
      var g := Groups(blocks);
      forall j | 0 <= j < |g| ensures |g[j]| <= Budget || g[j] in blocks {
        if j < |prev| - 1 || (j == |prev| - 1 && |prev[|prev| - 1]| + |x| > Budget) {
          assert g[j] == prev[j];
          assert prev[j] in init ==> prev[j] in blocks;
        }
      }
    }
  }

  /** There are never more groups than blocks. */
  lemma {:induction false} GroupsCount(blocks: seq<string>)
    requires blocks != []
    ensures |Groups(blocks)| <= |blocks|
  {
    if |blocks| > 1 {
      GroupsCount(blocks[..|blocks| - 1]);
    }
  }

  /** Blocks whose total fits the budget make a single group. */
  lemma {:induction false} GroupsSingle(blocks: seq<string>)
    requires blocks != []
    requires |Concat(blocks)| <= Budget
    ensures Groups(blocks) == [Concat(blocks)]
  {
    var n := |blocks|;
    var init, x := blocks[..n - 1], blocks[n - 1];
    assert blocks == init + [x];
    ConcatSnoc(init, x);
    if n > 1 {
      GroupsSingle(init);
    } else {
      assert Concat(init) == [];
      assert Concat(init) + x == x;
    }
  }

  /** Removing trailing whitespace never lengthens a message. */
  lemma TrimmedShorter(group: string)
    ensures |Trimmed(group)| <= |group|
  {
    Text.RStripSpec(group);
  }

  /** At least one message is sent, and no more than there are groups. */
  lemma FinishCount(groups: seq<string>, first: string)
    requires groups != []
    ensures 1 <= |Finish(groups, first)| <= |groups|
  {
  }

  /** When every group and the first block fit the budget, so does every
      message. */
  lemma FinishFits(groups: seq<string>, first: string)
    requires groups != []
    requires |first| <= Budget
    requires forall j :: 0 <= j < |groups| ==> |groups[j]| <= Budget
    ensures forall m :: m in Finish(groups, first) ==> |m| <= Budget
  {
    var r := Finish(groups, first);
    forall m | m in r ensures |m| <= Budget {
      var k :| 0 <= k < |r| && r[k] == m;
      if r != [first] {
        TrimmedShorter(groups[k]);
      }
    }
  }

  /** The digest of a non-empty list of papers: its blocks packed. */
  lemma DigestPacked(query: string, date: Date, papers: seq<Paper>, summaries: map<string, string>,
                     recommendations: seq<string>)
    requires papers != []
    ensures var blocks := Blocks(query, date, papers, summaries, recommendations);
      Digest(query, date, papers, summaries, recommendations) == Finish(Groups(blocks), blocks[0])
  {
  }

  /** The digest is never empty, and holds at most one message per block. */
  lemma DigestCount(query: string, date: Date, papers: seq<Paper>, summaries: map<string, string>,
                    recommendations: seq<string>)
    ensures var r := Digest(query, date, papers, summaries, recommendations);
      1 <= |r| <= 1 + |papers| + (if recommendations == [] then 0 else 1)
  {
    if papers != [] {
      var blocks := Blocks(query, date, papers, summaries, recommendations);
      DigestPacked(query, date, papers, summaries, recommendations);
      GroupsCount(blocks);
      FinishCount(Groups(blocks), blocks[0]);
    }
  }

  /** When every block fits the budget, so does every message of a digest
      with papers. */
  lemma DigestFits(query: string, date: Date, papers: seq<Paper>, summaries: map<string, string>,
                   recommendations: seq<string>)
    requires papers != []
    requires forall b :: b in Blocks(query, date, papers, summaries, recommendations) ==> |b| <= Budget
    ensures forall m :: m in Digest(query, date, papers, summaries, recommendations) ==> |m| <= Budget
  {
    var blocks := Blocks(query, date, papers, summaries, recommendations);
    DigestPacked(query, date, papers, summaries, recommendations);
    GroupsFit(blocks);
    assert blocks[0] in blocks;
    FinishFits(Groups(blocks), blocks[0]);
  }

  /** A digest whose blocks together fit the budget is sent as one message:
      all of its text with the trailing whitespace removed. */
  lemma DigestSingle(query: string, date: Date, papers: seq<Paper>, summaries: map<string, string>,
                     recommendations: seq<string>)
    requires papers != []
    requires |Concat(Blocks(query, date, papers, summaries, recommendations))| <= Budget
    ensures Digest(query, date, papers, summaries, recommendations)
      == [Trimmed(Concat(Blocks(query, date, papers, summaries, recommendations)))]
  {
    var blocks := Blocks(query, date, papers, summaries, recommendations);
    DigestPacked(query, date, papers, summaries, recommendations);
    GroupsSingle(blocks);
    ConcatStart(blocks);
    HeaderStart(query, date);
    assert Concat(blocks)[0] == '*';
    Text.StripEmptyIffAllSpace(Concat(blocks));
  }

  /** The text of a list of blocks starts with the first block. */
  lemma {:induction false} ConcatStart(blocks: seq<string>)
    requires blocks != []
    ensures |blocks[0]| <= |Concat(blocks)| && Concat(blocks)[..|blocks[0]|] == blocks[0]
  {
    var n := |blocks|;
    var init := blocks[..n - 1];
    if n == 1 {
      assert Concat(init) == [];
      assert Concat(blocks) == blocks[0];
    } else {
      ConcatStart(init);
      assert Concat(blocks) == Concat(init) + blocks[n - 1];
    }
  }

  /** The header starts with the `*` that opens its bold title. */
  lemma HeaderStart(query: string, date: Date)
    ensures |TopHeader(query, date)| > 0 && TopHeader(query, date)[0] == '*'
  {
  }
}
