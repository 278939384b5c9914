/** Rebuilding an abstract from OpenAlex's inverted index
    (`_abstract_from_openalex` in `papers_digest/sources/openalex.py`). The
    index maps each word to the positions where it occurs; it is read here as
    the list of its entries in the dictionary's iteration order. */
module OpenAlex {
  import opened Wrappers
  import opened Text

  /** The entries of `abstract_inverted_index`: a word and its positions. */
  type InvertedIndex = seq<(string, seq<int>)>

  /** The two fields of an OpenAlex work the reconstruction reads; an absent
      or `null` field is `None`. */
  datatype Work = Work(abstractText: Option<string>, invertedIndex: Option<InvertedIndex>)

  /** `max(positions)` of a non-empty list. */
  function Greatest(xs: seq<int>): (m: int)
    requires xs != []
    ensures m in xs
    ensures forall x :: x in xs ==> x <= m
  {
    if |xs| == 1 then xs[0]
    else
      var m := Greatest(xs[..|xs| - 1]);
      assert forall x :: x in xs ==> x in xs[..|xs| - 1] || x == xs[|xs| - 1];
      if xs[|xs| - 1] > m then xs[|xs| - 1] else m
  }

  /** `max_pos` after the first loop: the greatest listed position, and 0
      when there is none or all are negative. */
  function MaxPos(index: InvertedIndex): (m: nat)
    ensures forall i, p :: 0 <= i < |index| && p in index[i].1 ==> p <= m
    ensures m == 0 || exists i :: 0 <= i < |index| && m in index[i].1
  {
    if index == [] then 0
    else
      var init, positions := index[..|index| - 1], index[|index| - 1].1;
      var m := MaxPos(init);
      assert forall i :: 0 <= i < |init| ==> index[i] == init[i];
      if positions != [] && Greatest(positions) > m then Greatest(positions) else m
  }

  /** The word the fill loop leaves at position `p`: the last entry in index
      order that lists `p`, or "" when none does. */
  function WordAt(index: InvertedIndex, p: int): string {
    if index == [] then ""
    else if p in index[|index| - 1].1 then index[|index| - 1].0
    else WordAt(index[..|index| - 1], p)
  }

  /** The `words` list after both loops. */
  function Words(index: InvertedIndex): (words: seq<string>)
    ensures |words| == MaxPos(index) + 1
  {
    seq(MaxPos(index) + 1, p requires 0 <= p <= MaxPos(index) => WordAt(index, p))
  }

  /** The abstract of a work: its own abstract when that is non-empty;
      otherwise "" without an index, else the words joined by single spaces
      and stripped. */
  function Reconstruct(work: Work): string {
    if work.abstractText.Some? && work.abstractText.value != [] then work.abstractText.value
    else if work.invertedIndex.None? || work.invertedIndex.value == [] then ""
    else Strip(Join(" ", Words(work.invertedIndex.value)))
  }

  /** `_abstract_from_openalex`: the greatest position is found first, then a
      list of that many plus one empty words is filled entry by entry, each
      in-range position taking the entry's word. */
  method AbstractFromOpenAlex(work: Work) returns (text: string)
    ensures text == Reconstruct(work)
    ensures work.abstractText.Some? && work.abstractText.value != [] ==> text == work.abstractText.value
    ensures ((work.abstractText.None? || work.abstractText.value == []) &&
             (work.invertedIndex.None? || work.invertedIndex.value == [])) ==> text == []
  {
    if work.abstractText.Some? && work.abstractText.value != [] {
      return work.abstractText.value;
    }
    if work.invertedIndex.None? || work.invertedIndex.value == [] {
      return "";
    }
    var index := work.invertedIndex.value;
    var maxPos := 0;
    var i := 0;
    while i < |index|
      invariant 0 <= i <= |index|
      invariant maxPos == MaxPos(index[..i])
    {
      var positions := index[i].1;
      assert index[..i + 1][..i] == index[..i];
      if positions != [] {
        var top := Greatest(positions);
        if top > maxPos {
          maxPos := top;
        }
      }
      i := i + 1;
    }
    assert index[..i] == index;
    var words := FillWords(index, maxPos);
    assert words[..] == Words(index);
    text := Strip(Join(" ", words[..]));
  }

  /** The fill loop: `words` starts as `size + 1` empty words and every
      listed position inside it takes its entry's word, later entries
      overwriting earlier ones; positions outside it are skipped. */
  method FillWords(index: InvertedIndex, size: nat) returns (words: array<string>)
    ensures fresh(words)
    ensures words.Length == size + 1
    ensures forall p :: 0 <= p < words.Length ==> words[p] == WordAt(index, p)
  {
    words := new string[size + 1](_ => "");
    var i := 0;
    while i < |index|
      invariant 0 <= i <= |index|
      invariant forall p :: 0 <= p < words.Length ==> words[p] == WordAt(index[..i], p)
    {
      var word, positions := index[i].0, index[i].1;
      var j := 0;
      while j < |positions|
        invariant 0 <= j <= |positions|
        invariant forall p :: 0 <= p < words.Length ==>
          words[p] == if p in positions[..j] then word else WordAt(index[..i], p)
      {
        var pos := positions[j];
        if 0 <= pos < words.Length {
          words[pos] := word;
        }
        assert positions[..j + 1] == positions[..j] + [pos];
        j := j + 1;
      }
      assert positions[..j] == positions;
      assert index[..i + 1][..i] == index[..i];
      i := i + 1;
    }
    assert index[..i] == index;
  }

  // ---------------------------------------------------------------------
  // Properties of the reconstruction.

  /** Last writer wins: a position holds the word of the last entry that
      lists it. */
  lemma {:induction false} LastWriterWins(index: InvertedIndex, i: nat, p: int)
    requires i < |index| && p in index[i].1
    requires forall k :: i < k < |index| ==> p !in index[k].1
    ensures WordAt(index, p) == index[i].0
    decreases |index|
  {
    if i < |index| - 1 {
      var init := index[..|index| - 1];
      assert forall k :: i < k < |init| ==> init[k] == index[k];
      LastWriterWins(init, i, p);
    }
  }

  /** A position no entry lists stays empty, which the join shows as an
      extra space between its neighbours. */
  lemma {:induction false} UnlistedEmpty(index: InvertedIndex, p: int)
    requires forall k :: 0 <= k < |index| ==> p !in index[k].1
    ensures WordAt(index, p) == ""
    decreases |index|
  {
    if index != [] {
      var init := index[..|index| - 1];
      assert forall k :: 0 <= k < |init| ==> init[k] == index[k];
      UnlistedEmpty(init, p);
    }
  }

  /** A position some entry lists holds the word of one of the entries that
      list it. */
  lemma {:induction false} WordAtListed(index: InvertedIndex, p: int)
    requires exists k :: 0 <= k < |index| && p in index[k].1
    ensures exists k :: 0 <= k < |index| && p in index[k].1 && index[k].0 == WordAt(index, p)
    decreases |index|
  {
    if index != [] && p !in index[|index| - 1].1 {
      var init := index[..|index| - 1];
      var k0 :| 0 <= k0 < |index| && p in index[k0].1;
      assert index[k0] == init[k0];
      WordAtListed(init, p);
      var k :| 0 <= k < |init| && p in init[k].1 && init[k].0 == WordAt(init, p);
      assert index[k] == init[k];
    }
  }

  /** Some entry lists position `q` with the word `w`. */
  predicate Lists(index: InvertedIndex, q: int, w: string) {
    exists k :: 0 <= k < |index| && q in index[k].1 && index[k].0 == w
  }

  /** Every position the entry lists lies in `ws` and holds the entry's word. */
  predicate Fits(entry: (string, seq<int>), ws: seq<string>) {
    forall q :: q in entry.1 ==> 0 <= q < |ws| && entry.0 == ws[q]
  }

  /** The index lists each position `0 .. |ws| - 1` and nothing else, always
      with the word `ws` has there. */
  predicate Places(index: InvertedIndex, ws: seq<string>) {
    && ws != []
    && (forall k :: 0 <= k < |index| ==> Fits(index[k], ws))
    && (forall q :: 0 <= q < |ws| ==> Lists(index, q, ws[q]))
  }

  /** An index that places `ws` yields `ws` as its word list. */
  lemma WordsOfPlacement(index: InvertedIndex, ws: seq<string>)
    requires Places(index, ws)
    ensures Words(index) == ws
  {
    var last := |ws| - 1;
    assert Lists(index, last, ws[last]);
    var k :| 0 <= k < |index| && last in index[k].1 && index[k].0 == ws[last];
    assert last <= MaxPos(index);
    var m: int := MaxPos(index);
    if m != 0 {
      var i :| 0 <= i < |index| && m in index[i].1;
      assert Fits(index[i], ws);
    }
    assert |Words(index)| == |ws|;
    forall q | 0 <= q < |ws| ensures Words(index)[q] == ws[q] {
      assert Lists(index, q, ws[q]);
      WordAtListed(index, q);
      var k :| 0 <= k < |index| && q in index[k].1 && index[k].0 == WordAt(index, q);
      assert Fits(index[k], ws);
    }
  }

  /** Non-empty, space-free words joined by single spaces have nothing to
      strip. */
  lemma JoinWordsStripped(ws: seq<string>)
    requires ws != []
    requires forall q :: 0 <= q < |ws| ==> ws[q] != [] && forall c :: c in ws[q] ==> !IsSpace(c)
    ensures Strip(Join(" ", ws)) == Join(" ", ws)
  {
    JoinEndChars(ws);
    StripNoop(Join(" ", ws));
  }

  /** A join of non-empty words starts with the first word's first character
      and ends with the last word's last character. */
  lemma JoinEndChars(ws: seq<string>)
    requires ws != [] && ws[0] != [] && ws[|ws| - 1] != []
    ensures var j := Join(" ", ws);
      j != [] && j[0] == ws[0][0] && j[|j| - 1] == ws[|ws| - 1][|ws[|ws| - 1]| - 1]
  {
    var j := Join(" ", ws);
    JoinEnds(" ", ws);
    assert j[..|ws[0]|][0] == j[0];
    var w := ws[|ws| - 1];
    assert j[|j| - |w|..][|w| - 1] == j[|j| - 1];
  }

  /** An index that places the non-empty, space-free words `ws` at positions
      `0 .. |ws| - 1`, listing every one of them and nothing else, rebuilds
      exactly those words in position order joined by single spaces. */
  lemma Reconstructs(work: Work, ws: seq<string>)
    requires work.abstractText.None? || work.abstractText.value == []
    requires work.invertedIndex.Some? && Places(work.invertedIndex.value, ws)
    requires forall q :: 0 <= q < |ws| ==> ws[q] != [] && forall c :: c in ws[q] ==> !IsSpace(c)
    ensures Reconstruct(work) == Join(" ", ws)
  {
    var index := work.invertedIndex.value;
    assert Lists(index, 0, ws[0]);
    WordsOfPlacement(index, ws);
    JoinWordsStripped(ws);
  }
}
