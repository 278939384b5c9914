/** The self-contained helpers of the Telegram bot (`papers_digest/bot.py`):
    the `HH:MM` parser, the choice of summariser, the admin list, message
    truncation to Telegram's limit, and the counting done while a digest is
    sent part by part. */
module Bot {
  import opened Wrappers
  import opened Text

  // ---------------------------------------------------------------------
  // `_parse_time`

  /** `_parse_time`: exactly one `:`, each side a digit string once stripped
      (leading zeros allowed), hour at most 23 and minute at most 59. */
  function ParseTime(value: string): (r: Option<(nat, nat)>)
    ensures r.Some? ==> r.value.0 <= 23 && r.value.1 <= 59
  {
    var parts := SplitOn(value, ':');
    if |parts| != 2 then None
    else
      var hour, minute := Strip(parts[0]), Strip(parts[1]);
      if !IsDigits(hour) || !IsDigits(minute) then None
      else
        var h, m := DigitsValue(hour), DigitsValue(minute);
        if h > 23 || m > 59 then None else Some((h, m))
  }

  /** Input with no `:` or with more than one is rejected. */
  lemma ParseTimeColons(value: string)
    requires Occurrences(':', value) != 1
    ensures ParseTime(value) == None
  {
    SplitOnCount(value, ':');
  }

  /** An accepted time is written as `hour:minute` around its only colon,
      and each side, stripped, is the decimal form of its number. */
  lemma ParseTimeSound(value: string)
    requires ParseTime(value).Some?
    ensures Occurrences(':', value) == 1
    ensures var parts := SplitOn(value, ':');
      value == parts[0] + ":" + parts[1]
      && IsDigits(Strip(parts[0])) && DigitsValue(Strip(parts[0])) == ParseTime(value).value.0
      && IsDigits(Strip(parts[1])) && DigitsValue(Strip(parts[1])) == ParseTime(value).value.1
  {
    SplitOnCount(value, ':');
    SplitOnJoin(value, ':');
    var parts := SplitOn(value, ':');
    assert parts[1..] == [parts[1]];
  }

  /** A zero-padded `HH:MM` of a valid time parses back to that time. */
  lemma ParseTimeRoundTrip(h: nat, m: nat)
    requires h <= 23 && m <= 59
    ensures ParseTime(Pad2(h) + ":" + Pad2(m)) == Some((h, m))
  {
    var hh, mm := Pad2(h), Pad2(m);
    assert ':' !in hh && ':' !in mm;
    assert Join([':'], [hh, mm]) == hh + ":" + mm;
    JoinSplitOn([hh, mm], ':');
    StripNoop(hh);
    StripNoop(mm);
  }

  // ---------------------------------------------------------------------
  // `_pick_summarizer`

  datatype SummarizerKind = Simple | OpenAI | Ollama

  /** The two kinds of configuration the bot picks a summariser from; a
      `None` provider is the empty string. */
  datatype SummaryConfig =
    | ChannelConfig(useLlm: bool, provider: string)
    | GlobalSettings(useLlm: bool, provider: string)

  /** The provider in effect: global settings fall back to "auto" when none
      is set; a channel's provider is taken as it is. */
  function Provider(config: SummaryConfig): string {
    if config.GlobalSettings? && config.provider == "" then "auto" else config.provider
  }

  /** `_pick_summarizer`, with the `OPENAI_API_KEY` environment variable as
      the parameter `apiKey` ("" when unset). */
  function PickSummarizer(config: SummaryConfig, apiKey: string): (r: SummarizerKind)
    ensures r == OpenAI ==> config.useLlm && apiKey != [] && Provider(config) in {"openai", "auto"}
    ensures r == Ollama ==> config.useLlm && Provider(config) in {"ollama", "auto"}
    ensures !config.useLlm ==> r == Simple
  {
    var provider := Provider(config);
    if config.useLlm && provider == "openai" && apiKey != [] then OpenAI
    else if config.useLlm && provider == "ollama" then Ollama
    else if config.useLlm && provider == "auto" then (if apiKey != [] then OpenAI else Ollama)
    else Simple
  }

  /** The decision table: with the LLM enabled, "openai" needs a key,
      "ollama" always wins, "auto" prefers OpenAI when a key is present, and
      anything else is the extractive summariser. */
  lemma PickSummarizerTable(config: SummaryConfig, apiKey: string)
    requires config.useLlm
    ensures Provider(config) == "openai" ==> PickSummarizer(config, apiKey) == (if apiKey == [] then Simple else OpenAI)
    ensures Provider(config) == "ollama" ==> PickSummarizer(config, apiKey) == Ollama
    ensures Provider(config) == "auto" ==> PickSummarizer(config, apiKey) == (if apiKey == [] then Ollama else OpenAI)
    ensures Provider(config) !in {"openai", "ollama", "auto"} ==> PickSummarizer(config, apiKey) == Simple
  {
  }

  // ---------------------------------------------------------------------
  // `_admin_ids` / `_is_admin`

  /** The numbers among comma-separated entries: those entries that are
      digit strings once stripped. */
  function IdsOf(entries: seq<string>): (ids: set<nat>)
    ensures forall v :: v in entries && IsDigits(Strip(v)) ==> DigitsValue(Strip(v)) in ids
    ensures forall id :: id in ids ==> exists v :: v in entries && IsDigits(Strip(v)) && DigitsValue(Strip(v)) == id
  {
    set v | v in entries && IsDigits(Strip(v)) :: DigitsValue(Strip(v))
  }

  /** `_admin_ids`, with the `PAPERS_DIGEST_ADMIN_IDS` environment variable as
      the parameter `raw`. */
  function AdminIds(raw: string): set<nat> {
    IdsOf(SplitOn(raw, ','))
  }

  function ToStrings(ids: seq<nat>): (r: seq<string>)
    ensures |r| == |ids|
    ensures forall k :: 0 <= k < |ids| ==> r[k] == NatToString(ids[k])
  {
    seq(|ids|, k requires 0 <= k < |ids| => NatToString(ids[k]))
  }

  function IndexIn<T(==)>(x: T, s: seq<T>): (k: nat)
    requires x in s
    ensures k < |s| && s[k] == x
  {
    if s[0] == x then 0 else 1 + IndexIn(x, s[1..])
  }

  /** A decimal entry is its own strip and reads back as its number. */
  lemma DecimalEntry(ids: seq<nat>, k: nat)
    requires k < |ids|
    ensures var v := ToStrings(ids)[k]; Strip(v) == v && IsDigits(v) && DigitsValue(v) == ids[k]
  {
    StripNoop(ToStrings(ids)[k]);
    NatToStringRoundTrip(ids[k]);
  }

  /** Numbers written in decimal are read back as those numbers. */
  lemma IdsOfDecimal(ids: seq<nat>)
    ensures IdsOf(ToStrings(ids)) == set k | 0 <= k < |ids| :: ids[k]
  {
    var parts := ToStrings(ids);
    var a := IdsOf(parts);
    var b := set k | 0 <= k < |ids| :: ids[k];
    forall id | id in b ensures id in a {
      var k :| 0 <= k < |ids| && ids[k] == id;
      DecimalEntry(ids, k);
      assert parts[k] in parts;
    }
    forall id | id in a ensures id in b {
      var v :| v in parts && IsDigits(Strip(v)) && DigitsValue(Strip(v)) == id;
      var k := IndexIn(v, parts);
      DecimalEntry(ids, k);
    }
  }

  /** A comma-separated list of ids, written in decimal, gives back exactly
      those ids. */
  lemma AdminIdsList(ids: seq<nat>)
    requires ids != []
    ensures AdminIds(Join(",", ToStrings(ids))) == set k | 0 <= k < |ids| :: ids[k]
  {
    var parts := ToStrings(ids);
    forall k | 0 <= k < |parts| ensures ',' !in parts[k] {
      assert IsDigits(parts[k]);
    }
    JoinSplitOn(parts, ',');
    IdsOfDecimal(ids);
  }

  datatype ChatType = Private | Group | Supergroup | Channel

  /** `_is_admin`: a private chat with a user whose id is on the admin list. */
  function IsAdmin(chat: Option<ChatType>, userId: Option<int>, raw: string): (r: bool)
    ensures r ==> chat == Some(Private) && userId.Some? && userId.value >= 0
    ensures r <==> (chat == Some(Private) && userId.Some? &&
      exists v :: v in SplitOn(raw, ',') && IsDigits(Strip(v)) && DigitsValue(Strip(v)) == userId.value)
  {
    chat == Some(Private) && userId.Some? && userId.value >= 0 && userId.value as nat in AdminIds(raw)
  }

  // ---------------------------------------------------------------------
  // Truncation in `_safe_send_message`

  const MessageLimit := 4096

  /** Text over Telegram's 4096-character limit keeps its first 4093
      characters and gains "..."; shorter text is sent as it is. */
  function Truncate(text: string): (r: string)
    ensures |r| <= MessageLimit
    ensures |text| <= MessageLimit ==> r == text
    ensures |text| > MessageLimit ==>
      (|r| == MessageLimit && r[..MessageLimit - 3] == text[..MessageLimit - 3] && r[MessageLimit - 3..] == "...")
  {
    if |text| > MessageLimit then text[..MessageLimit - 3] + "..." else text
  }

  /** Truncating twice changes nothing more. */
  lemma TruncateIdempotent(text: string)
    ensures Truncate(Truncate(text)) == Truncate(text)
  {
  }

  // ---------------------------------------------------------------------
  // Counting in `_send_multiple_messages`

  /** The number of parts delivered: `delivered[i]` is the outcome of
      sending part `i`. */
  function CountSent(delivered: seq<bool>): (n: nat)
    ensures n <= |delivered|
  {
    if delivered == [] then 0
    else CountSent(delivered[..|delivered| - 1]) + (if delivered[|delivered| - 1] then 1 else 0)
  }

  /** The characters of the parts delivered, counted before truncation. */
  function CharsSent(messages: seq<string>, delivered: seq<bool>): nat
    requires |delivered| == |messages|
  {
    if messages == [] then 0
    else
      CharsSent(messages[..|messages| - 1], delivered[..|delivered| - 1])
      + (if delivered[|delivered| - 1] then |messages[|messages| - 1]| else 0)
  }

  predicate AllSent(delivered: seq<bool>) {
    forall i :: 0 <= i < |delivered| ==> delivered[i]
  }

  const SendFailure := "Failed to send some parts"

  /** `_send_multiple_messages` without the network: part `i` is delivered
      when `delivered[i]` holds. It reports whether every part went out, how
      many did, their total length, and the error recorded with the post. */
  method SendMultipleMessages(messages: seq<string>, delivered: seq<bool>)
    returns (success: bool, partsSent: nat, totalChars: nat, errorMessage: string)
    requires |delivered| == |messages|
    ensures success <==> AllSent(delivered)
    ensures partsSent == CountSent(delivered)
    ensures totalChars == CharsSent(messages, delivered)
    ensures errorMessage == if success then "" else SendFailure
  {
    success, partsSent, totalChars, errorMessage := true, 0, 0, "";
    var i := 0;
    while i < |messages|
      invariant 0 <= i <= |messages|
      invariant success <==> AllSent(delivered[..i])
      invariant partsSent == CountSent(delivered[..i])
      invariant totalChars == CharsSent(messages[..i], delivered[..i])
      invariant errorMessage == if success then "" else SendFailure
    {
      assert delivered[..i + 1][..i] == delivered[..i];
      assert messages[..i + 1][..i] == messages[..i];
      if delivered[i] {
        partsSent := partsSent + 1;
        totalChars := totalChars + |messages[i]|;
      } else {
        success := false;
        if errorMessage == "" {
          errorMessage := SendFailure;
        }
      }
      i := i + 1;
    }
    assert delivered[..i] == delivered;
    assert messages[..i] == messages;
  }

  /** Every part went out exactly when the count reaches the number of
      parts. */
  lemma {:induction false} AllSentIffCount(delivered: seq<bool>)
    ensures AllSent(delivered) <==> CountSent(delivered) == |delivered|
  {
    if delivered != [] {
      var init := delivered[..|delivered| - 1];
      AllSentIffCount(init);
      if AllSent(delivered) {
        assert AllSent(init);
      }
      if AllSent(init) && delivered[|delivered| - 1] {
        forall i | 0 <= i < |delivered| ensures delivered[i] {
          if i < |init| { assert delivered[i] == init[i]; }
        }
      }
    }
  }

  /** The characters counted are at most those of all parts, and exactly
      those when every part went out. */
  lemma {:induction false} CharsSentBound(messages: seq<string>, delivered: seq<bool>)
    requires |delivered| == |messages|
    ensures CharsSent(messages, delivered) <= SumLengths(messages)
    ensures AllSent(delivered) ==> CharsSent(messages, delivered) == SumLengths(messages)
  {
    if messages != [] {
      var init, last := messages[..|messages| - 1], messages[|messages| - 1];
      var dinit := delivered[..|delivered| - 1];
      CharsSentBound(init, dinit);
      SumLengthsSnoc(init, last);
      assert init + [last] == messages;
      if AllSent(delivered) {
        assert AllSent(dinit);
        assert delivered[|delivered| - 1];
      }
    }
  }
}
