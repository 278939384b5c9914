/** The Mini App back end (`papers_digest/webapp.py`): the check of the
    init data Telegram signs, and the channel routes that change the stored
    channels once that check passes. HMAC-SHA-256 is not modelled: `sign`
    stands for the hex digest `_verify_telegram_webapp` computes from the bot
    token and the check string. */
module WebApp {
  import opened Wrappers
  import opened Text

  // ---------------------------------------------------------------------
  // String order

  /** Python's `<` on strings: lexicographic by code point. */
  predicate Before(a: string, b: string) {
    if a == [] then b != []
    else if b == [] then false
    else if a[0] != b[0] then a[0] < b[0]
    else Before(a[1..], b[1..])
  }

  lemma {:induction false} BeforeIrreflexive(a: string)
    ensures !Before(a, a)
  {
    if a != [] { BeforeIrreflexive(a[1..]); }
  }

  lemma {:induction false} BeforeTransitive(a: string, b: string, c: string)
    requires Before(a, b) && Before(b, c)
    ensures Before(a, c)
  {
    if a != [] && a[0] == b[0] && b[0] == c[0] {
      BeforeTransitive(a[1..], b[1..], c[1..]);
    }
  }

  lemma {:induction false} BeforeTotal(a: string, b: string)
    requires a != b
    ensures Before(a, b) || Before(b, a)
  {
    if a != [] && b != [] && a[0] == b[0] {
      assert a == [a[0]] + a[1..] && b == [b[0]] + b[1..];
      BeforeTotal(a[1..], b[1..]);
    }
  }

  // ---------------------------------------------------------------------
  // Dictionaries in insertion order

  /** A `dict[str, str]`: its items in insertion order. */
  type Entries = seq<(string, string)>

  function KeySet(d: Entries): set<string> {
    if d == [] then {} else {d[0].0} + KeySet(d[1..])
  }

  /** No key occurs twice, as in every dictionary. */
  predicate Distinct(d: Entries) {
    d == [] || (d[0].0 !in KeySet(d[1..]) && Distinct(d[1..]))
  }

  /** `d.get(k)`. */
  function Lookup(d: Entries, k: string): Option<string> {
    if d == [] then None
    else if d[0].0 == k then Some(d[0].1)
    else Lookup(d[1..], k)
  }

  /** `d[k] = v`: an existing key keeps its place, a new one goes last. */
  function Put(d: Entries, k: string, v: string): Entries {
    if d == [] then [(k, v)]
    else if d[0].0 == k then [(k, v)] + d[1..]
    else [d[0]] + Put(d[1..], k, v)
  }

  /** What `d.pop(k, ...)` leaves in `d`: the entry with key `k` goes. */
  function Remove(d: Entries, k: string): Entries {
    if d == [] then []
    else (if d[0].0 == k then [] else [d[0]]) + Remove(d[1..], k)
  }

  lemma {:induction false} LookupKeySet(d: Entries, k: string)
    ensures Lookup(d, k).Some? <==> k in KeySet(d)
  {
    if d != [] { LookupKeySet(d[1..], k); }
  }

  lemma {:induction false} KeySetOfItem(d: Entries, e: (string, string))
    requires e in d
    ensures e.0 in KeySet(d)
  {
    if d[0] != e {
      assert e in d[1..];
      KeySetOfItem(d[1..], e);
    }
  }

  /** Storing `k` sets its value, keeps every other key's value and adds
      `k` to the keys, which stay distinct. */
  lemma {:induction false} PutFacts(d: Entries, k: string, v: string)
    ensures KeySet(Put(d, k, v)) == KeySet(d) + {k}
    ensures Distinct(d) ==> Distinct(Put(d, k, v))
    ensures forall j :: Lookup(Put(d, k, v), j) == if j == k then Some(v) else Lookup(d, j)
  {
    if d != [] && d[0].0 != k {
      PutFacts(d[1..], k, v);
      assert Put(d, k, v)[1..] == Put(d[1..], k, v);
    } else if d != [] {
      assert Put(d, k, v)[1..] == d[1..];
    }
  }

  /** Popping `k` removes it from the keys, which stay distinct. */
  lemma {:induction false} RemoveKeys(d: Entries, k: string)
    ensures KeySet(Remove(d, k)) == KeySet(d) - {k}
    ensures Distinct(d) ==> Distinct(Remove(d, k))
  {
    if d != [] {
      RemoveKeys(d[1..], k);
      if d[0].0 != k {
        assert Remove(d, k) == [d[0]] + Remove(d[1..], k);
        assert Remove(d, k)[1..] == Remove(d[1..], k);
      } else {
        assert Remove(d, k) == Remove(d[1..], k);
      }
    }
  }

  /** Popping `k` keeps every other key's value and only drops items. */
  lemma {:induction false} RemoveLookup(d: Entries, k: string, j: string)
    ensures Lookup(Remove(d, k), j) == if j == k then None else Lookup(d, j)
    ensures multiset(Remove(d, k)) <= multiset(d)
  {
    if d != [] {
      RemoveLookup(d[1..], k, j);
      assert d == [d[0]] + d[1..];
      if d[0].0 != k {
        assert Remove(d, k) == [d[0]] + Remove(d[1..], k);
        assert Remove(d, k)[1..] == Remove(d[1..], k);
      } else {
        assert Remove(d, k) == Remove(d[1..], k);
      }
    }
  }

  /** With distinct keys, an item is in the dictionary iff its key looks up
      its value. */
  lemma {:induction false} ItemLookup(d: Entries, k: string, v: string)
    requires Distinct(d)
    ensures (k, v) in d <==> Lookup(d, k) == Some(v)
  {
    if d != [] {
      assert d == [d[0]] + d[1..];
      ItemLookup(d[1..], k, v);
      if d[0].0 == k && (k, v) in d[1..] {
        KeySetOfItem(d[1..], (k, v));
      }
    }
  }

  /** Appending an item keeps keys distinct iff its key is new. */
  lemma {:induction false} DistinctSnoc(d: Entries, e: (string, string))
    ensures KeySet(d + [e]) == KeySet(d) + {e.0}
    ensures Distinct(d + [e]) <==> Distinct(d) && e.0 !in KeySet(d)
  {
    if d == [] {
      assert [e][1..] == [];
    } else {
      assert (d + [e])[1..] == d[1..] + [e];
      DistinctSnoc(d[1..], e);
    }
  }

  // ---------------------------------------------------------------------
  // Parsing the init data

  /** `pair.split("=", 1)` for a pair holding `=`: the key before the first
      `=` and the value after it; `None` for a pair without `=`. */
  function SplitPair(pair: string): (r: Option<(string, string)>)
    ensures r.None? <==> '=' !in pair
    ensures r.Some? ==> r.value.0 + "=" + r.value.1 == pair && '=' !in r.value.0
  {
    var i := IndexOf(pair, '=');
    if i == |pair| then None
    else
      assert pair == pair[..i] + "=" + pair[i + 1..];
      Some((pair[..i], pair[i + 1..]))
  }

  /** The pair holds `=` and its key is `k`. */
  predicate Names(pair: string, k: string) {
    SplitPair(pair).Some? && SplitPair(pair).value.0 == k
  }

  /** The `data` dictionary after the parse loop over `pairs`. */
  function Parsed(pairs: seq<string>): Entries {
    if pairs == [] then []
    else
      var d := Parsed(pairs[..|pairs| - 1]);
      match SplitPair(pairs[|pairs| - 1])
      case None => d
      case Some(kv) => Put(d, kv.0, kv.1)
  }

  /** The parse loop of `_verify_telegram_webapp`. */
  method ParseInitData(initData: string) returns (data: Entries)
    ensures data == Parsed(SplitOn(initData, '&'))
  {
    var pairs := SplitOn(initData, '&');
    data := [];
    var i := 0;
    while i < |pairs|
      invariant 0 <= i <= |pairs|
      invariant data == Parsed(pairs[..i])
    {
      assert pairs[..i + 1][..i] == pairs[..i];
      var pair := pairs[i];
      if '=' in pair {
        var eq := IndexOf(pair, '=');
        data := Put(data, pair[..eq], pair[eq + 1..]);
      }
      i := i + 1;
    }
    assert pairs[..i] == pairs;
  }

  /** The parsed dictionary has distinct keys: those the pairs name. */
  lemma {:induction false} ParsedDistinct(pairs: seq<string>)
    ensures Distinct(Parsed(pairs))
  {
    if pairs != [] {
      var n := |pairs| - 1;
      ParsedDistinct(pairs[..n]);
      if SplitPair(pairs[n]).Some? {
        PutFacts(Parsed(pairs[..n]), SplitPair(pairs[n]).value.0, SplitPair(pairs[n]).value.1);
      }
    }
  }

  /** A repeated key keeps the value of its last pair. */
  lemma {:induction false} ParsedLastWins(pairs: seq<string>, i: nat)
    requires i < |pairs| && SplitPair(pairs[i]).Some?
    requires forall j :: i < j < |pairs| ==> !Names(pairs[j], SplitPair(pairs[i]).value.0)
    ensures Lookup(Parsed(pairs), SplitPair(pairs[i]).value.0) == Some(SplitPair(pairs[i]).value.1)
    decreases |pairs|
  {
    var n := |pairs| - 1;
    var init := pairs[..n];
    if i < n {
      assert forall j :: i < j < |init| ==> init[j] == pairs[j];
      ParsedLastWins(init, i);
      assert !Names(pairs[n], SplitPair(pairs[i]).value.0);
    }
    if SplitPair(pairs[n]).Some? {
      PutFacts(Parsed(init), SplitPair(pairs[n]).value.0, SplitPair(pairs[n]).value.1);
    }
  }

  /** A key no pair names is absent; in particular pairs without `=` add
      nothing. */
  lemma {:induction false} ParsedUnnamed(pairs: seq<string>, k: string)
    requires forall j :: 0 <= j < |pairs| ==> !Names(pairs[j], k)
    ensures Lookup(Parsed(pairs), k) == None
    decreases |pairs|
  {
    if pairs != [] {
      var n := |pairs| - 1;
      var init := pairs[..n];
      assert forall j :: 0 <= j < |init| ==> init[j] == pairs[j];
      ParsedUnnamed(init, k);
      assert !Names(pairs[n], k);
      if SplitPair(pairs[n]).Some? {
        PutFacts(Parsed(init), SplitPair(pairs[n]).value.0, SplitPair(pairs[n]).value.1);
      }
    }
  }

  // ---------------------------------------------------------------------
  // The check string

  /** `sorted(data.items())` for distinct keys: insertion into a list
      sorted by key. */
  function Insert(sorted: Entries, e: (string, string)): Entries {
    if sorted == [] then [e]
    else if Before(sorted[0].0, e.0) then [sorted[0]] + Insert(sorted[1..], e)
    else [e] + sorted
  }

  function Sort(d: Entries): Entries {
    if d == [] then [] else Insert(Sort(d[..|d| - 1]), d[|d| - 1])
  }

  /** Keys strictly increase along the list. */
  predicate StrictlySorted(s: Entries) {
    forall i, j :: 0 <= i < j < |s| ==> Before(s[i].0, s[j].0)
  }

  /** Every key of `s` comes after `x`. */
  predicate Above(x: string, s: Entries) {
    forall i :: 0 <= i < |s| ==> Before(x, s[i].0)
  }

  lemma SortedCons(a: (string, string), s: Entries)
    ensures StrictlySorted([a] + s) <==> Above(a.0, s) && StrictlySorted(s)
  {
    var t := [a] + s;
    assert forall i :: 0 <= i < |s| ==> t[i + 1] == s[i];
    if Above(a.0, s) && StrictlySorted(s) {
      forall i, j | 0 <= i < j < |t| ensures Before(t[i].0, t[j].0) {
        if i > 0 { assert Before(s[i - 1].0, s[j - 1].0); }
      }
    }
    if StrictlySorted(t) {
      forall i | 0 <= i < |s| ensures Before(a.0, s[i].0) {
        assert Before(t[0].0, t[i + 1].0);
      }
      forall i, j | 0 <= i < j < |s| ensures Before(s[i].0, s[j].0) {
        assert Before(t[i + 1].0, t[j + 1].0);
      }
    }
  }

  lemma {:induction false} InsertMultiset(sorted: Entries, e: (string, string))
    ensures multiset(Insert(sorted, e)) == multiset(sorted) + multiset{e}
  {
    if sorted != [] && Before(sorted[0].0, e.0) {
      InsertMultiset(sorted[1..], e);
      assert sorted == [sorted[0]] + sorted[1..];
    }
  }

  lemma {:induction false} InsertAbove(x: string, s: Entries, e: (string, string))
    requires Above(x, s) && Before(x, e.0)
    ensures Above(x, Insert(s, e))
  {
    if s != [] {
      var r := Insert(s, e);
      if Before(s[0].0, e.0) {
        InsertAbove(x, s[1..], e);
        assert forall i :: 1 <= i < |r| ==> r[i] == Insert(s[1..], e)[i - 1];
      } else {
        assert forall i :: 1 <= i < |r| ==> r[i] == s[i - 1];
      }
    }
  }

  lemma {:induction false} InsertSorted(sorted: Entries, e: (string, string))
    requires StrictlySorted(sorted)
    requires e.0 !in KeySet(sorted)
    ensures StrictlySorted(Insert(sorted, e))
  {
    if sorted != [] {
      var a, rest := sorted[0], sorted[1..];
      assert sorted == [a] + rest;
      SortedCons(a, rest);
      if Before(a.0, e.0) {
        InsertSorted(rest, e);
        InsertAbove(a.0, rest, e);
        SortedCons(a, Insert(rest, e));
      } else {
        BeforeTotal(a.0, e.0);
        forall i | 0 <= i < |sorted| ensures Before(e.0, sorted[i].0) {
          if i > 0 { BeforeTransitive(e.0, a.0, sorted[i].0); }
        }
        SortedCons(e, sorted);
      }
    }
  }

  /** Sorting a dictionary's items: the same items, keys strictly
      increasing. */
  lemma {:induction false} SortSorted(d: Entries)
    requires Distinct(d)
    ensures multiset(Sort(d)) == multiset(d)
    ensures StrictlySorted(Sort(d))
  {
    if d != [] {
      var n := |d| - 1;
      var init := d[..n];
      assert d == init + [d[n]];
      DistinctSnoc(init, d[n]);
      SortSorted(init);
      var s := Sort(init);
      if d[n].0 in KeySet(s) {
        LookupKeySet(s, d[n].0);
        var i := KeyIndex(s, d[n].0);
        assert s[i] in multiset(init);
        KeySetOfItem(init, s[i]);
      }
      InsertSorted(s, d[n]);
      InsertMultiset(s, d[n]);
    }
  }

  /** An index holding key `k`. */
  lemma {:induction false} KeyIndex(d: Entries, k: string) returns (i: nat)
    requires k in KeySet(d)
    ensures i < |d| && d[i].0 == k
  {
    if d[0].0 == k {
      i := 0;
    } else {
      i := KeyIndex(d[1..], k);
      i := i + 1;
    }
  }

  /** One line of the check string. */
  function Line(e: (string, string)): string {
    e.0 + "=" + e.1
  }

  lemma LineFree(e: (string, string), c: char)
    requires c != '=' && c !in e.0 && c !in e.1
    ensures c !in Line(e)
  {
    assert Line(e) == e.0 + ['='] + e.1;
  }

  /** The fields that enter the check string: every parsed field but
      `hash`, ordered by key. */
  function CheckFields(data: Entries): Entries {
    Sort(Remove(data, "hash"))
  }

  /** `data_check_string`: the fields' lines joined by newlines. */
  function CheckString(fields: Entries): string {
    Join("\n", Lines(fields))
  }

  /** The lines of the fields, in order. */
  function Lines(fields: Entries): (r: seq<string>)
    ensures |r| == |fields|
    ensures forall i :: 0 <= i < |r| ==> r[i] == Line(fields[i])
  {
    seq(|fields|, i requires 0 <= i < |fields| => Line(fields[i]))
  }

  /** The check string covers exactly the parsed fields other than `hash`,
      each with its last value, in strictly increasing key order. */
  lemma CheckFieldsProperties(pairs: seq<string>, k: string, v: string)
    ensures StrictlySorted(CheckFields(Parsed(pairs)))
    ensures (k, v) in CheckFields(Parsed(pairs)) <==> k != "hash" && Lookup(Parsed(pairs), k) == Some(v)
  {
    var data := Parsed(pairs);
    var kept := Remove(data, "hash");
    ParsedDistinct(pairs);
    RemoveKeys(data, "hash");
    RemoveLookup(data, "hash", k);
    SortSorted(kept);
    assert (k, v) in CheckFields(data) <==> (k, v) in kept by {
      assert (k, v) in CheckFields(data) <==> (k, v) in multiset(CheckFields(data));
      assert (k, v) in kept <==> (k, v) in multiset(kept);
    }
    ItemLookup(kept, k, v);
  }

  // ---------------------------------------------------------------------
  // Verifying the init data

  /** What `_verify_telegram_webapp` answers: no for an empty bot token or
      a missing or empty `hash`, otherwise whether the digest of the check
      string equals the received hash. */
  function Verified(botToken: string, initData: string, sign: (string, string) -> string): bool {
    if botToken == [] then false
    else
      var data := Parsed(SplitOn(initData, '&'));
      var received := Lookup(data, "hash").GetOr("");
      received != [] && sign(botToken, CheckString(CheckFields(data))) == received
  }

  /** `_verify_telegram_webapp`: `botToken` is `PAPERS_DIGEST_BOT_TOKEN`. */
  method VerifyInitData(botToken: string, initData: string, sign: (string, string) -> string)
    returns (ok: bool)
    ensures ok == Verified(botToken, initData, sign)
    ensures botToken == [] ==> !ok
    ensures ok ==> Lookup(Parsed(SplitOn(initData, '&')), "hash").Some?
  {
    if botToken == [] {
      return false;
    }
    var data := ParseInitData(initData);
    var received := Lookup(data, "hash").GetOr("");
    data := Remove(data, "hash");
    if received == [] {
      return false;
    }
    var checkString := CheckString(Sort(data));
    ok := sign(botToken, checkString) == received;
  }

  /** Init data made of `key=value` fields and a final `hash=h`, none using
      `&` or `=` in a key, is verified exactly when `h` is the digest of
      the fields sorted by key. */
  lemma SignedInitData(botToken: string, fields: Entries, h: string, sign: (string, string) -> string)
    requires botToken != [] && h != [] && '&' !in h
    requires Distinct(fields) && "hash" !in KeySet(fields)
    requires forall i :: 0 <= i < |fields| ==> '=' !in fields[i].0 && '&' !in fields[i].0 && '&' !in fields[i].1
    ensures Verified(botToken, Join("&", Lines(fields) + ["hash=" + h]), sign) <==>
      sign(botToken, CheckString(Sort(fields))) == h
  {
    SignedParse(fields, h);
    AppendNew(fields, "hash", h);
    PutFacts(fields, "hash", h);
    RemoveAbsent(fields, ("hash", h));
  }

  /** The init data of `SignedInitData` parses to the fields followed by
      the hash. */
  lemma SignedParse(fields: Entries, h: string)
    requires '&' !in h
    requires Distinct(fields) && "hash" !in KeySet(fields)
    requires forall i :: 0 <= i < |fields| ==> '=' !in fields[i].0 && '&' !in fields[i].0 && '&' !in fields[i].1
    ensures Parsed(SplitOn(Join("&", Lines(fields) + ["hash=" + h]), '&')) == Put(fields, "hash", h)
  {
    SignedSplit(fields, h);
    SignedPairs(fields, h);
  }

  /** Splitting signed init data at `&` gives back its pairs. */
  lemma SignedSplit(fields: Entries, h: string)
    requires '&' !in h
    requires forall i :: 0 <= i < |fields| ==> '&' !in fields[i].0 && '&' !in fields[i].1
    ensures SplitOn(Join("&", Lines(fields) + ["hash=" + h]), '&') == Lines(fields) + ["hash=" + h]
  {
    var pairs := Lines(fields) + ["hash=" + h];
    forall k | 0 <= k < |pairs| ensures '&' !in pairs[k] {
      if k < |fields| {
        assert pairs[k] == Line(fields[k]);
        LineFree(fields[k], '&');
      } else {
        assert pairs[k] == "hash=" + h;
      }
    }
    JoinSplitOn(pairs, '&');
  }

  /** The pairs of signed init data parse to its fields with `hash` last. */
  lemma SignedPairs(fields: Entries, h: string)
    requires Distinct(fields) && "hash" !in KeySet(fields)
    requires forall i :: 0 <= i < |fields| ==> '=' !in fields[i].0
    ensures Parsed(Lines(fields) + ["hash=" + h]) == Put(fields, "hash", h)
  {
    var pairs := Lines(fields) + ["hash=" + h];
    HashPair(h);
    assert pairs[|pairs| - 1] == "hash=" + h;
    ParsedSnoc(pairs, ("hash", h));
    assert pairs[..|pairs| - 1] == Lines(fields);
    ParsedLines(fields);
  }

  /** The `hash=<h>` pair splits into the key `hash` and the value `h`. */
  lemma HashPair(h: string)
    ensures SplitPair("hash=" + h) == Some(("hash", h))
  {
    assert "hash=" + h == Line(("hash", h));
    SplitPairLine(("hash", h));
  }

  /** The parse of pairs ending in a `key=value` pair stores that pair
      last. */
  lemma ParsedSnoc(pairs: seq<string>, e: (string, string))
    requires pairs != [] && SplitPair(pairs[|pairs| - 1]) == Some(e)
    ensures Parsed(pairs) == Put(Parsed(pairs[..|pairs| - 1]), e.0, e.1)
  {
  }

  lemma SplitPairLine(e: (string, string))
    requires '=' !in e.0
    ensures SplitPair(Line(e)) == Some(e)
  {
    IndexOfAt(e.0, "=" + e.1, '=');
    assert Line(e) == e.0 + ("=" + e.1);
    assert Line(e)[..|e.0|] == e.0;
    assert Line(e)[|e.0| + 1..] == e.1;
  }

  /** Storing a key not yet present appends it. */
  lemma {:induction false} AppendNew(d: Entries, k: string, v: string)
    requires k !in KeySet(d)
    ensures Put(d, k, v) == d + [(k, v)]
  {
    if d != [] {
      AppendNew(d[1..], k, v);
      assert d + [(k, v)] == [d[0]] + (d[1..] + [(k, v)]);
    }
  }

  /** Popping the key of a trailing item that no other item has leaves the
      rest. */
  lemma {:induction false} RemoveAbsent(d: Entries, e: (string, string))
    requires e.0 !in KeySet(d)
    ensures Remove(d + [e], e.0) == d
  {
    if d == [] {
      assert [e][1..] == [];
    } else {
      assert (d + [e])[1..] == d[1..] + [e];
      RemoveAbsent(d[1..], e);
      assert d == [d[0]] + d[1..];
    }
  }

  /** Parsing the lines of fields with distinct, `=`-free keys gives the
      fields back. */
  lemma {:induction false} ParsedLines(fields: Entries)
    requires Distinct(fields)
    requires forall i :: 0 <= i < |fields| ==> '=' !in fields[i].0
    ensures Parsed(Lines(fields)) == fields
  {
    if fields != [] {
      var n := |fields| - 1;
      var init := fields[..n];
      assert fields == init + [fields[n]];
      DistinctSnoc(init, fields[n]);
      assert Lines(fields)[..n] == Lines(init);
      ParsedLines(init);
      SplitPairLine(fields[n]);
      AppendNew(init, fields[n].0, fields[n].1);
    }
  }

  // ---------------------------------------------------------------------
  // Channel routes

  /** A channel's stored configuration. */
  datatype ChannelConfig = ChannelConfig(
    channelId: string, scienceArea: string, postTime: string,
    useLlm: bool, summarizerProvider: Option<string>, enabled: bool)

  /** The JSON body of `PUT /api/channels/<id>`: `None` for an absent field.
      The provider may be present and `null`. */
  datatype ChannelUpdate = ChannelUpdate(
    scienceArea: Option<string>, postTime: Option<string>, useLlm: Option<bool>,
    summarizerProvider: Option<Option<string>>, enabled: Option<bool>)

  /** A route's answer: 200, 400, 401 or 404. */
  datatype Status = Done | BadRequest(reason: string) | Unauthorized | NotFound

  /** The fields of `config` after `update_channel` applied `body`: present
      fields replace the stored ones (text stripped), absent ones stay. */
  function Merge(config: ChannelConfig, body: ChannelUpdate): (r: ChannelConfig)
    ensures r.channelId == config.channelId
    ensures r.scienceArea == if body.scienceArea.Some? then Strip(body.scienceArea.value) else config.scienceArea
    ensures r.postTime == if body.postTime.Some? then Strip(body.postTime.value) else config.postTime
    ensures r.useLlm == body.useLlm.GetOr(config.useLlm)
    ensures r.summarizerProvider == body.summarizerProvider.GetOr(config.summarizerProvider)
    ensures r.enabled == body.enabled.GetOr(config.enabled)
  {
    ChannelConfig(
      config.channelId,
      if body.scienceArea.Some? then Strip(body.scienceArea.value) else config.scienceArea,
      if body.postTime.Some? then Strip(body.postTime.value) else config.postTime,
      body.useLlm.GetOr(config.useLlm),
      body.summarizerProvider.GetOr(config.summarizerProvider),
      body.enabled.GetOr(config.enabled))
  }

  /** Stripping twice is stripping once. */
  lemma StripTwice(s: string)
    ensures Strip(Strip(s)) == Strip(s)
  {
    StripNoop(Strip(s));
  }

  /** Sending the same update twice changes nothing more. */
  lemma MergeIdempotent(config: ChannelConfig, body: ChannelUpdate)
    ensures Merge(Merge(config, body), body) == Merge(config, body)
  {
    var once := Merge(config, body);
    var twice := Merge(once, body);
    if body.scienceArea.Some? { StripTwice(body.scienceArea.value); }
    if body.postTime.Some? { StripTwice(body.postTime.value); }
    assert twice.scienceArea == once.scienceArea;
    assert twice.postTime == once.postTime;
  }

  /** An update that names every field makes the stored values irrelevant
      (only the channel id survives). */
  lemma MergeFull(c1: ChannelConfig, c2: ChannelConfig, body: ChannelUpdate)
    requires c1.channelId == c2.channelId
    requires body.scienceArea.Some? && body.postTime.Some? && body.useLlm.Some?
    requires body.summarizerProvider.Some? && body.enabled.Some?
    ensures Merge(c1, body) == Merge(c2, body)
  {
  }

  /** `create_channel`'s check of the body's `channel_id` and
      `science_area` (each `None` when absent): both are stripped and an
      empty channel id is refused. */
  function NewChannel(channelId: Option<string>, scienceArea: Option<string>): (r: Result<(string, string), string>)
    ensures r.Err? <==> AllSpace(channelId.GetOr(""))
    ensures r.Ok? ==> r.value.0 != [] && r.value.0 == Strip(channelId.value) && r.value.1 == Strip(scienceArea.GetOr(""))
  {
    var id := Strip(channelId.GetOr(""));
    StripEmptyIffAllSpace(channelId.GetOr(""));
    if id == [] then Err("Channel ID is required")
    else Ok((id, Strip(scienceArea.GetOr(""))))
  }

  /** The stored channels, keyed by channel id, and the signing setup every
      route checks first. */
  class ChannelStore {
    var channels: map<string, ChannelConfig>
    const botToken: string
    const sign: (string, string) -> string

    constructor (botToken: string, sign: (string, string) -> string, channels: map<string, ChannelConfig>)
      ensures this.botToken == botToken && this.sign == sign && this.channels == channels
    {
      this.botToken := botToken;
      this.sign := sign;
      this.channels := channels;
    }

    /** `PUT /api/channels/<channel_id>`. */
    method UpdateChannel(initData: string, channelId: string, body: ChannelUpdate) returns (status: Status)
      modifies this
      ensures !Verified(botToken, initData, sign) ==> status == Unauthorized && channels == old(channels)
      ensures Verified(botToken, initData, sign) && channelId !in old(channels) ==>
        status == NotFound && channels == old(channels)
      ensures Verified(botToken, initData, sign) && channelId in old(channels) ==>
        status == Done && channels == old(channels)[channelId := Merge(old(channels)[channelId], body)]
    {
      var ok := VerifyInitData(botToken, initData, sign);
      if !ok {
        return Unauthorized;
      }
      if channelId !in channels {
        return NotFound;
      }
      channels := channels[channelId := Merge(channels[channelId], body)];
      status := Done;
    }

    /** `DELETE /api/channels/<channel_id>`. */
    method DeleteChannel(initData: string, channelId: string) returns (status: Status)
      modifies this
      ensures !Verified(botToken, initData, sign) ==> status == Unauthorized && channels == old(channels)
      ensures Verified(botToken, initData, sign) && channelId !in old(channels) ==>
        status == NotFound && channels == old(channels)
      ensures Verified(botToken, initData, sign) && channelId in old(channels) ==>
        status == Done && channels == old(channels) - {channelId}
    {
      var ok := VerifyInitData(botToken, initData, sign);
      if !ok {
        return Unauthorized;
      }
      if channelId !in channels {
        return NotFound;
      }
      channels := channels - {channelId};
      status := Done;
    }
  }
}
