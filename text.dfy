/** Python string primitives the digest code relies on, restricted to ASCII:
    character classes, `lower`, `strip`/`rstrip`, `sep.join`, `str.split`,
    `isdigit`/`int`, `str(n)` and the sentence splitter
    `re.split(r"(?<=[.!?])\s+", text)` shared by the highlighter and the
    summariser. */
module Text {

  /** Python's whitespace on ASCII: the characters for which `str.isspace`
      holds and which `\s` matches in a `str` pattern. */
  predicate IsSpace(c: char) {
    c == ' ' || c == '\t' || c == '\n' || c == '\r' || c == '\U{B}' || c == '\U{C}'
    || ('\U{1C}' <= c <= '\U{1F}')
  }

  predicate IsDigit(c: char) { '0' <= c <= '9' }

  predicate IsUpper(c: char) { 'A' <= c <= 'Z' }

  /** The class `[A-Za-z0-9]`. */
  predicate IsAsciiAlnum(c: char) { IsDigit(c) || IsUpper(c) || 'a' <= c <= 'z' }

  /** The class `[a-z0-9]`. */
  predicate IsLowerAlnum(c: char) { IsDigit(c) || 'a' <= c <= 'z' }

  /** `str.lower` on one character; characters outside `A-Z` are unchanged. */
  function LowerChar(c: char): (r: char)
    ensures IsLowerAlnum(r) <==> IsAsciiAlnum(c)
    ensures !IsUpper(r)
  {
    if IsUpper(c) then (c as int + 32) as char else c
  }

  function Lower(s: string): (r: string)
    ensures |r| == |s|
    ensures forall i :: 0 <= i < |s| ==> r[i] == LowerChar(s[i])
  {
    seq(|s|, i requires 0 <= i < |s| => LowerChar(s[i]))
  }

  /** The number of whitespace characters `s` starts with. */
  function LeadingSpaces(s: string): (n: nat)
    ensures n <= |s|
    ensures forall k :: 0 <= k < n ==> IsSpace(s[k])
    ensures n == |s| || !IsSpace(s[n])
  {
    if s != [] && IsSpace(s[0]) then 1 + LeadingSpaces(s[1..]) else 0
  }

  /** `str.lstrip()`. */
  function LStrip(s: string): (r: string)
    ensures |r| <= |s| && r == s[|s| - |r|..]
    ensures r == [] || !IsSpace(r[0])
    ensures forall i :: 0 <= i < |s| - |r| ==> IsSpace(s[i])
  {
    s[LeadingSpaces(s)..]
  }

  /** `str.rstrip()`. */
  function RStrip(s: string): string {
    if s != [] && IsSpace(s[|s| - 1]) then RStrip(s[..|s| - 1]) else s
  }

  /** `rstrip` removes exactly the whitespace at the end: the result is a
      prefix that does not end in whitespace, and only whitespace follows it. */
  lemma {:induction false} RStripSpec(s: string)
    ensures |RStrip(s)| <= |s| && RStrip(s) == s[..|RStrip(s)|]
    ensures RStrip(s) == [] || !IsSpace(RStrip(s)[|RStrip(s)| - 1])
    ensures forall i :: |RStrip(s)| <= i < |s| ==> IsSpace(s[i])
  {
    if s != [] && IsSpace(s[|s| - 1]) {
      RStripSpec(s[..|s| - 1]);
    }
  }

  /** `str.strip()`. */
  function Strip(s: string): (r: string)
    ensures |r| <= |s|
    ensures r == [] || (!IsSpace(r[0]) && !IsSpace(r[|r| - 1]))
  {
    RStripSpec(LStrip(s));
    RStrip(LStrip(s))
  }

  predicate AllSpace(s: string) { forall i :: 0 <= i < |s| ==> IsSpace(s[i]) }

  lemma StripEmptyIffAllSpace(s: string)
    ensures Strip(s) == [] <==> AllSpace(s)
  {
    var l := LStrip(s);
    RStripSpec(l);
    if Strip(s) == [] {
      assert l == [];
    }
    if AllSpace(s) {
      LStripAllSpace(s);
    }
  }

  lemma LStripAllSpace(s: string)
    requires AllSpace(s)
    ensures LStrip(s) == []
  {
  }

  /** A string whose ends are not whitespace is its own strip. */
  lemma StripNoop(s: string)
    requires s == [] || (!IsSpace(s[0]) && !IsSpace(s[|s| - 1]))
    ensures Strip(s) == s
  {
  }

  /** `sep.join(parts)`. */
  function Join(sep: string, parts: seq<string>): (r: string)
    ensures parts == [] ==> r == []
    ensures |parts| == 1 ==> r == parts[0]
  {
    if |parts| == 0 then []
    else if |parts| == 1 then parts[0]
    else parts[0] + sep + Join(sep, parts[1..])
  }

  function SumLengths(parts: seq<string>): nat {
    if parts == [] then 0 else |parts[0]| + SumLengths(parts[1..])
  }

  lemma {:induction false} SumLengthsSnoc(parts: seq<string>, x: string)
    ensures SumLengths(parts + [x]) == SumLengths(parts) + |x|
  {
    if parts != [] {
      assert (parts + [x])[1..] == parts[1..] + [x];
      SumLengthsSnoc(parts[1..], x);
    }
  }

  lemma {:induction false} JoinLength(sep: string, parts: seq<string>)
    requires parts != []
    ensures |Join(sep, parts)| == SumLengths(parts) + (|parts| - 1) * |sep|
  {
    if |parts| > 1 {
      JoinLength(sep, parts[1..]);
    }
  }

  /** A join starts with the first part and ends with the last one. */
  lemma {:induction false} JoinEnds(sep: string, parts: seq<string>)
    requires parts != []
    ensures var j := Join(sep, parts);
      |parts[0]| <= |j| && j[..|parts[0]|] == parts[0]
      && |parts[|parts| - 1]| <= |j| && j[|j| - |parts[|parts| - 1]|..] == parts[|parts| - 1]
  {
    if |parts| > 1 {
      JoinEnds(sep, parts[1..]);
      var rest := Join(sep, parts[1..]);
      assert Join(sep, parts) == parts[0] + sep + rest;
    }
  }

  /** Index of the first occurrence of `c` in `s`, or `|s|` when there is none. */
  function IndexOf(s: string, c: char): (i: nat)
    ensures i <= |s|
    ensures i < |s| ==> s[i] == c
    ensures forall k :: 0 <= k < i ==> s[k] != c
  {
    if s == [] then 0 else if s[0] == c then 0 else 1 + IndexOf(s[1..], c)
  }

  /** `s.split(c)` for a one-character separator: every piece between two
      separators, so there is always one more piece than separators. */
  function SplitOn(s: string, c: char): (parts: seq<string>)
    ensures |parts| >= 1
    ensures forall k :: 0 <= k < |parts| ==> c !in parts[k]
    decreases |s|
  {
    var i := IndexOf(s, c);
    if i == |s| then [s] else [s[..i]] + SplitOn(s[i + 1..], c)
  }

  function Occurrences<T(==)>(x: T, s: seq<T>): nat {
    if s == [] then 0 else (if s[0] == x then 1 else 0) + Occurrences(x, s[1..])
  }

  lemma {:induction false} SplitOnCount(s: string, c: char)
    ensures |SplitOn(s, c)| == Occurrences(c, s) + 1
    decreases |s|
  {
    var i := IndexOf(s, c);
    if i == |s| {
      OccurrencesAbsent(c, s);
    } else {
      var rest := s[i + 1..];
      SplitOnCount(rest, c);
      assert s == s[..i] + ([c] + rest);
      OccurrencesAppend(c, s[..i], [c] + rest);
      OccurrencesAbsent(c, s[..i]);
      assert ([c] + rest)[1..] == rest;
    }
  }

  /** Joining the pieces of a split with the separator gives the text back. */
  lemma {:induction false} SplitOnJoin(s: string, c: char)
    ensures Join([c], SplitOn(s, c)) == s
    decreases |s|
  {
    var i := IndexOf(s, c);
    if i < |s| {
      var rest := s[i + 1..];
      SplitOnJoin(rest, c);
      var parts := SplitOn(s, c);
      assert parts == [s[..i]] + SplitOn(rest, c);
      assert parts[1..] == SplitOn(rest, c);
      assert s == s[..i] + [c] + rest;
    }
  }

  /** Splitting a join of pieces free of the separator gives the pieces back. */
  lemma {:induction false} JoinSplitOn(parts: seq<string>, c: char)
    requires parts != []
    requires forall k :: 0 <= k < |parts| ==> c !in parts[k]
    ensures SplitOn(Join([c], parts), c) == parts
    decreases |parts|
  {
    var p := parts[0];
    if |parts| == 1 {
      IndexOfAbsent(p, c);
    } else {
      var rest := Join([c], parts[1..]);
      assert Join([c], parts) == p + [c] + rest;
      SplitOnSeparator(p, rest, c);
      JoinSplitOn(parts[1..], c);
      assert parts == [p] + parts[1..];
    }
  }

  /** Splitting at the first separator. */
  lemma SplitOnSeparator(p: string, rest: string, c: char)
    requires c !in p
    ensures SplitOn(p + [c] + rest, c) == [p] + SplitOn(rest, c)
  {
    var s := p + [c] + rest;
    IndexOfAt(p, [c] + rest, c);
    assert s == p + ([c] + rest);
    assert IndexOf([c] + rest, c) == 0;
    assert s[|p| + 1..] == rest;
    assert s[..|p|] == p;
  }

  lemma {:induction false} IndexOfAbsent(s: string, c: char)
    requires c !in s
    ensures IndexOf(s, c) == |s|
  {
    if s != [] { IndexOfAbsent(s[1..], c); }
  }

  /** The first `c` of `a + b` is the first one of `b` when `a` has none. */
  lemma {:induction false} IndexOfAt(a: string, b: string, c: char)
    requires c !in a
    ensures IndexOf(a + b, c) == |a| + IndexOf(b, c)
  {
    if a == [] {
      assert a + b == b;
    } else {
      assert (a + b)[1..] == a[1..] + b;
      IndexOfAt(a[1..], b, c);
    }
  }

  lemma {:induction false} OccurrencesAbsent<T>(x: T, s: seq<T>)
    requires x !in s
    ensures Occurrences(x, s) == 0
  {
    if s != [] { OccurrencesAbsent(x, s[1..]); }
  }

  lemma {:induction false} OccurrencesPresent<T>(x: T, s: seq<T>)
    requires x in s
    ensures Occurrences(x, s) > 0
  {
    if s[0] != x { OccurrencesPresent(x, s[1..]); }
  }

  lemma {:induction false} OccurrencesAppend<T>(x: T, a: seq<T>, b: seq<T>)
    ensures Occurrences(x, a + b) == Occurrences(x, a) + Occurrences(x, b)
  {
    if a == [] {
      assert a + b == b;
    } else {
      assert (a + b)[1..] == a[1..] + b;
      OccurrencesAppend(x, a[1..], b);
    }
  }

  // ---------------------------------------------------------------------
  // Maximal runs of a character class: `re.findall(r"[...]+", s)`.

  /** Length of the run of class-`p` characters at the start of `s`. */
  function RunLength(s: string, p: char -> bool): (n: nat)
    ensures n <= |s|
    ensures forall k :: 0 <= k < n ==> p(s[k])
    ensures n == |s| || !p(s[n])
  {
    if s != [] && p(s[0]) then 1 + RunLength(s[1..], p) else 0
  }

  /** The maximal runs of class-`p` characters of `s`, left to right. */
  function Runs(s: string, p: char -> bool): (r: seq<string>)
    ensures forall k :: 0 <= k < |r| ==> |r[k]| > 0
    ensures forall k, i :: 0 <= k < |r| && 0 <= i < |r[k]| ==> p(r[k][i])
    decreases |s|
  {
    if s == [] then []
    else if !p(s[0]) then Runs(s[1..], p)
    else
      var n := RunLength(s, p);
      [s[..n]] + Runs(s[n..], p)
  }

  /** A text with no class-`p` character has no runs. */
  lemma {:induction false} RunsNone(s: string, p: char -> bool)
    requires forall i :: 0 <= i < |s| ==> !p(s[i])
    ensures Runs(s, p) == []
    decreases |s|
  {
    if s != [] { RunsNone(s[1..], p); }
  }

  /** Characters outside the class around a text do not change its runs. */
  lemma {:induction false} RunsPadded(w1: string, m: string, w2: string, p: char -> bool)
    requires forall i :: 0 <= i < |w1| ==> !p(w1[i])
    requires forall i :: 0 <= i < |w2| ==> !p(w2[i])
    ensures Runs(w1 + m + w2, p) == Runs(m, p)
    decreases |w1| + |m|
  {
    if w1 != [] {
      assert (w1 + m + w2)[1..] == w1[1..] + m + w2;
      RunsPadded(w1[1..], m, w2, p);
    } else if m == [] {
      assert w1 + m + w2 == w2;
      RunsNone(w2, p);
    } else {
      var s := w1 + m + w2;
      assert s == m + w2;
      if !p(m[0]) {
        assert s[1..] == [] + m[1..] + w2;
        RunsPadded([], m[1..], w2, p);
      } else {
        var n := RunLength(s, p);
        var n' := RunLength(m, p);
        RunLengthPadded(m, w2, p);
        assert s[..n] == m[..n'];
        assert s[n..] == [] + m[n'..] + w2;
        RunsPadded([], m[n'..], w2, p);
      }
    }
  }

  lemma {:induction false} RunLengthPadded(m: string, w2: string, p: char -> bool)
    requires forall i :: 0 <= i < |w2| ==> !p(w2[i])
    ensures RunLength(m + w2, p) == RunLength(m, p)
    decreases |m|
  {
    if m != [] && p(m[0]) {
      assert (m + w2)[1..] == m[1..] + w2;
      RunLengthPadded(m[1..], w2, p);
    } else if m == [] {
      assert m + w2 == w2;
    }
  }

  /** A character outside the class separates the runs on its two sides. */
  lemma {:induction false} RunsSep(a: string, c: char, b: string, p: char -> bool)
    requires !p(c)
    ensures Runs(a + [c] + b, p) == Runs(a, p) + Runs(b, p)
    decreases |a|
  {
    var s := a + [c] + b;
    if a == [] {
      assert s[1..] == b;
    } else if !p(a[0]) {
      assert s[1..] == a[1..] + [c] + b;
      RunsSep(a[1..], c, b, p);
    } else {
      var n := RunLength(a, p);
      RunLengthSep(a, c, b, p);
      assert s[..n] == a[..n];
      assert s[n..] == a[n..] + [c] + b;
      RunsSep(a[n..], c, b, p);
    }
  }

  lemma {:induction false} RunLengthSep(a: string, c: char, b: string, p: char -> bool)
    requires !p(c)
    ensures RunLength(a + [c] + b, p) == RunLength(a, p)
    decreases |a|
  {
    var s := a + [c] + b;
    if a != [] && p(a[0]) {
      assert s[1..] == a[1..] + [c] + b;
      RunLengthSep(a[1..], c, b, p);
    }
  }

  /** `strip` only removes whitespace, which never belongs to a run of a class
      without whitespace. */
  lemma RunsStrip(s: string, p: char -> bool)
    requires forall c: char :: IsSpace(c) ==> !p(c)
    ensures Runs(Strip(s), p) == Runs(s, p)
  {
    var w1, w2 := StripSplit(s);
    forall i | 0 <= i < |w1| ensures !p(w1[i]) {
      assert IsSpace(w1[i]);
    }
    forall i | 0 <= i < |w2| ensures !p(w2[i]) {
      assert IsSpace(w2[i]);
    }
    RunsPadded(w1, Strip(s), w2, p);
  }

  lemma SplitAt<T>(s: seq<T>, k: nat)
    requires k <= |s|
    ensures s == s[..k] + s[k..]
  {
  }

  /** What `strip` cuts off: whitespace before and whitespace after. */
  lemma StripSplit(s: string) returns (w1: string, w2: string)
    ensures s == w1 + Strip(s) + w2
    ensures forall i :: 0 <= i < |w1| ==> IsSpace(w1[i])
    ensures forall i :: 0 <= i < |w2| ==> IsSpace(w2[i])
  {
    var l := LStrip(s);
    var r := RStrip(l);
    RStripSpec(l);
    assert Strip(s) == r;
    var m := |s| - |l|;
    w1, w2 := s[..m], l[|r|..];
    assert l == s[m..];
    assert s == w1 + l by { SplitAt(s, m); }
    assert l == r + w2 by { SplitAt(l, |r|); }
    assert w1 + l == w1 + r + w2;
    forall i | 0 <= i < |w1| ensures IsSpace(w1[i]) {
      assert w1[i] == s[i];
    }
    forall i | 0 <= i < |w2| ensures IsSpace(w2[i]) {
      assert w2[i] == l[|r| + i];
    }
  }

  // ---------------------------------------------------------------------
  // Digit strings: `str.isdigit`, `int(...)` and `str(n)` on ASCII.

  /** `s.isdigit()` on ASCII: non-empty and made of decimal digits only. */
  predicate IsDigits(s: string) {
    |s| > 0 && forall i :: 0 <= i < |s| ==> IsDigit(s[i])
  }

  /** `int(s)` for a digit string; leading zeros are allowed. */
  function DigitsValue(s: string): (n: nat)
    requires forall i :: 0 <= i < |s| ==> IsDigit(s[i])
  {
    if s == [] then 0
    else
      var d := s[|s| - 1];
      assert IsDigit(d);
      DigitsValue(s[..|s| - 1]) * 10 + (d as int - '0' as int)
  }

  function DigitChar(d: nat): (c: char)
    requires d < 10
    ensures IsDigit(c) && c as int - '0' as int == d
  {
    ('0' as int + d) as char
  }

  /** `str(n)` for a natural number: decimal digits without leading zeros. */
  function NatToString(n: nat): (s: string)
    ensures IsDigits(s)
    ensures |s| > 1 ==> s[0] != '0'
    decreases n
  {
    if n < 10 then [DigitChar(n)] else NatToString(n / 10) + [DigitChar(n % 10)]
  }

  lemma {:induction false} NatToStringRoundTrip(n: nat)
    ensures DigitsValue(NatToString(n)) == n
    decreases n
  {
    if n >= 10 {
      NatToStringRoundTrip(n / 10);
      var s := NatToString(n);
      assert s[..|s| - 1] == NatToString(n / 10);
    }
  }

  /** Leading zeros do not change the value of a digit string. */
  lemma {:induction false} LeadingZeroValue(s: string)
    requires forall i :: 0 <= i < |s| ==> IsDigit(s[i])
    ensures DigitsValue(['0'] + s) == DigitsValue(s)
    decreases |s|
  {
    if s != [] {
      var t := ['0'] + s;
      assert t[..|t| - 1] == ['0'] + s[..|s| - 1];
      LeadingZeroValue(s[..|s| - 1]);
    }
  }

  /** `f"{n:02d}"`-style zero padding to width two. */
  function Pad2(n: nat): (s: string)
    ensures IsDigits(s) && DigitsValue(s) == n
    ensures n < 100 ==> |s| == 2
  {
    NatToStringRoundTrip(n);
    if n < 10 then LeadingZeroValue(NatToString(n)); ['0'] + NatToString(n) else NatToString(n)
  }

  // ---------------------------------------------------------------------
  // Sentence splitting: `re.split(r"(?<=[.!?])\s+", text)`.

  predicate IsSentenceEnd(c: char) { c == '.' || c == '!' || c == '?' }

  /** Position `i` starts a separator: whitespace right after `.`, `!` or `?`. */
  predicate BoundaryAt(s: string, i: int) {
    1 <= i < |s| && IsSentenceEnd(s[i - 1]) && IsSpace(s[i])
  }

  /** The first separator at or after `from`, or `|s|` when there is none. */
  function FirstBoundary(s: string, from: nat): (i: nat)
    requires 1 <= from
    ensures from <= i || i == |s|
    ensures i <= |s|
    ensures i < |s| ==> BoundaryAt(s, i)
    ensures forall k :: from <= k < i ==> !BoundaryAt(s, k)
    decreases |s| - from
  {
    if from >= |s| then |s| else if BoundaryAt(s, from) then from else FirstBoundary(s, from + 1)
  }

  /** End of the run of whitespace starting at `i` (the regex's greedy `\s+`). */
  function SpaceRunEnd(s: string, i: nat): (j: nat)
    requires i <= |s|
    ensures i <= j <= |s|
    ensures forall k :: i <= k < j ==> IsSpace(s[k])
    ensures j == |s| || !IsSpace(s[j])
    decreases |s| - i
  {
    if i < |s| && IsSpace(s[i]) then SpaceRunEnd(s, i + 1) else i
  }

  /** The sentences of `s`: it is cut at every maximal run of whitespace that
      follows `.`, `!` or `?`; the punctuation stays with the sentence before.
      There is always at least one piece (the empty text gives `[""]`). */
  function SplitSentences(s: string): (parts: seq<string>)
    ensures |parts| >= 1
    ensures FirstBoundary(s, 1) == |s| ==> parts == [s]
    decreases |s|
  {
    var i := FirstBoundary(s, 1);
    if i == |s| then [s] else [s[..i]] + SplitSentences(s[SpaceRunEnd(s, i)..])
  }

  /** Every piece of a split is a slice of the text: no sentence is longer
      than the text, and their lengths add up to at most its length. */
  lemma {:induction false} SplitSentencesLength(s: string)
    ensures SumLengths(SplitSentences(s)) + |SplitSentences(s)| - 1 <= |s|
    decreases |s|
  {
    var i := FirstBoundary(s, 1);
    if i < |s| {
      var j := SpaceRunEnd(s, i);
      SplitSentencesLength(s[j..]);
    }
  }

  /** The first sentence is a prefix of the text. */
  lemma SplitSentencesFirst(s: string)
    ensures var p := SplitSentences(s)[0]; |p| <= |s| && p == s[..|p|]
  {
  }
}
