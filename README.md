# papers-digest-ai in Dafny

This project models the core of papers-digest-ai in Dafny. papers-digest-ai collects recent papers from several sources, ranks them against a query, summarises them, formats a Telegram MarkdownV2 digest, and posts it to channels. A Telegram bot and a Mini App manage those channels. The model covers the logic between the I/O.

- **Models:** the paper, digest-item and report records, and first-seen deduplication by URL.
- **Two scorers.** `ranker.py` uses token overlap divided by the square root of the content length. `ranking.py` uses a sum of `1 + ln(tf)` over the query terms, plus keyword extraction over a `Counter`.
- **Ranking:** both rankings are stable descending sorts cut to a limit.
- **Extractive summariser:** the first two sentences of the abstract.
- **OpenAlex:** the abstract rebuilt from the inverted index.
- **MarkdownV2 formatter:** the escaping, the digest layout, and the greedy packing of entries into messages of at most 4000 characters.
- **Bot helpers:**
  - admin ids;
  - `HH:MM` parsing;
  - choice of summariser;
  - truncation to 4096 characters;
  - the multi-part send loop.
- **Metrics collector:** digest and post records, the system counters, and the daily summary.
- **Agent pipeline:** plan, fetch, analyse, validate.
- **Mini App back end:**
  - the init-data check in the manner of Telegram's "Validating data received via the Mini App";
  - the channel create, update and delete routes.

Stateful code is imperative Dafny. The collector is a class with `modifies` clauses, and so is the channel store. The source's loops are methods with invariants, each proved equal to a specification function. Examples are the deduplication, the sorts, the escaping passes, the entry packing, the OpenAlex fill, the send loop, the init-data parse and the validate loop. The properties are stated as lemmas about those functions.

Several things are passed in as parameters:
- `sqrt` and `ln`, as functions that keep their sign;
- the HMAC digest;
- what each paper source returns;
- the language model's summaries;
- whether each Telegram send succeeded;
- timestamps.

Where the code and its design description differ, the model follows the code:
- Both scoring formulas are modelled, because both are in use. The agent pipeline ranks with `ranker.py`. The metrics score with `ranking.py`.
- `ranking.py` formats a missing abstract as the text `None`, which adds the token `none`; `Ranking.PaperTokens` states this.
- `format_digest` reads `paper.paper_id`, and `OpenAlexSource` builds papers with `paper_id=`. The `Paper` dataclass of `models.py` declares no such field. The model gives `Paper` an `id` field.
- `settings.py` as shipped lacks `ChannelConfig`, `add_channel`, `get_channel_config` and `remove_channel`, although `bot.py` and `webapp.py` import them. The channel routes are modelled over a map from channel id to configuration. Lookup and removal are by key.

## Model

| member | source | states |
|---|---|---|
| Models.TopSources | src/papers_digest/models.py:32-33 | the set holds every item's source and only those; it is empty iff there are no items |
| Models.UniqueByUrl | src/papers_digest/models.py:36-44 | the loop with its `seen` set returns `Dedup(papers)` |
| Models.DedupUrls | src/papers_digest/models.py:36-44 | deduplication keeps every URL of the input and adds none |
| Models.DedupDistinct | src/papers_digest/models.py:36-44 | no URL occurs twice in the result |
| Models.DedupSubsequence | src/papers_digest/models.py:36-44 | the result is a subsequence of the input (order kept) |
| Models.DedupKeepsFirst | src/papers_digest/models.py:39-43 | each kept paper is the first paper of the input with its URL |
| Models.DedupOfDistinct | src/papers_digest/models.py:36-44 | input without repeated URLs comes back unchanged |
| Models.DedupIdempotent | src/papers_digest/models.py:36-44 | deduplicating twice equals deduplicating once |
| Models.DedupLengthIffDistinct | src/papers_digest/models.py:36-44 | the result is never longer, and is as long iff the input has no repeated URL |
| Ranker.Tokens | src/papers_digest/ranker.py:13-14 | every token is non-empty and made of lower-case ASCII letters and digits |
| Ranker.TokensStrip | src/papers_digest/ranker.py:25 | stripping the content does not change its tokens |
| Ranker.OverlapIsHits | src/papers_digest/ranker.py:31 | the sum over the distinct query tokens of their counts in the content equals the number of content tokens that are query tokens |
| Ranker.HitsBounds | src/papers_digest/ranker.py:31 | the overlap is at most the number of content tokens, and positive iff some content token is a query token |
| Ranker.ScorePaper | src/papers_digest/ranker.py:21-33 | the score is never negative; it is 0 when the query or the content has no tokens; it is positive iff a content token is a query token |
| Ranker.ScoreSameTokens | src/papers_digest/ranker.py:29-31 | queries with the same token set score every paper alike (the query's tf counts do not matter) |
| Ranker.FirstMatch | src/papers_digest/ranker.py:40-43 | the index found is the first sentence sharing a token with the query, or the count when none does |
| Ranker.HighlightMatches | src/papers_digest/ranker.py:40-43 | when some sentence shares a query token, the highlight is the first such sentence stripped, and it shares a query token |
| Ranker.HighlightFallback | src/papers_digest/ranker.py:44 | when no sentence matches, the highlight is the first sentence stripped if it is non-empty, else the title |
| Ranker.EmptyQueryNeverMatches | src/papers_digest/ranker.py:37-42 | a query without tokens matches no sentence |
| Ranker.RankPapers | src/papers_digest/ranker.py:47-53 | the scored array sorted in place and sliced `[:limit]` equals `Ranked` |
| Ranker.RankedProperties | src/papers_digest/ranker.py:47-53 | `min(limit, n)` items for `limit >= 0`; scores never increase; each item is an input paper with its own score and highlight; items of equal score keep their input order |
| Sorting.SortInPlace | src/papers_digest/ranker.py:52 | the in-place stable descending sort leaves the array equal to `SortDesc` of its old contents |
| Sorting.SortDescPermutation | src/papers_digest/ranker.py:52 | the sort is a permutation |
| Sorting.SortDescSorted | src/papers_digest/ranker.py:52 | keys never increase along the result |
| Sorting.SortDescStable | src/papers_digest/ranking.py:33 | for every key, the elements with that key keep their relative order (Python's sort is stable) |
| Sorting.PyPrefix | src/papers_digest/ranking.py:34 | `s[:n]` is a prefix of `s`, of length `min(n, len(s))` for `n >= 0` |
| Ranking.TokenizeAgrees | src/papers_digest/ranking.py:11-12 | lower-casing and then matching `[a-z0-9]+` gives the same tokens as matching `[A-Za-z0-9]+` and lower-casing each |
| Ranking.PaperTokens | src/papers_digest/ranking.py:19-20 | the scored text's tokens are the title's then the abstract's, or then `none` when the abstract is missing |
| Ranking.ScorePaper | src/papers_digest/ranking.py:15-29 | the loop over the query terms computes `Score` |
| Ranking.TermSumBounds | src/papers_digest/ranking.py:24-28 | each occurring term adds at least 1; the score is positive iff some query term occurs |
| Ranking.TermSumAppend | src/papers_digest/ranking.py:24-28 | terms add independently, so a repeated query term counts again |
| Ranking.TermSumSingles | src/papers_digest/ranking.py:28 | when no query term occurs more than once, the score is the number of matching terms |
| Ranking.ScoreSign | src/papers_digest/ranking.py:15-29 | 0 for a query without tokens; never negative; positive iff a query term occurs in the text |
| Ranking.RankPapersProperties | src/papers_digest/ranking.py:32-34 | `min(limit, n)` papers of the input for `limit >= 0`, scores never increasing, equal scores in input order |
| Ranking.Bump | src/papers_digest/ranking.py:40 | adding one to `t` raises its count by one and changes no other count; a new term goes last |
| Ranking.Update | src/papers_digest/ranking.py:40 | `Counter.update` raises each count by the term's occurrences among the tokens |
| Ranking.Pop | src/papers_digest/ranking.py:42 | popping removes exactly `t` and keeps every other count |
| Ranking.CountPapers | src/papers_digest/ranking.py:38-40 | the counter is well formed and holds each term's total count over all papers |
| Ranking.PopAll | src/papers_digest/ranking.py:41-42 | after popping the query terms, their count is 0; every other term keeps its count |
| Ranking.UpdateOrder | src/papers_digest/ranking.py:40 | `Counter.update` keeps the known terms in place and appends the new ones in order of first occurrence among the tokens |
| Ranking.CountPapersOrder | src/papers_digest/ranking.py:38-40 | the counter lists its terms in order of first occurrence among all the papers' tokens |
| Ranking.PopOrder | src/papers_digest/ranking.py:42 | popping `t` leaves the other terms in their order |
| Ranking.PopAllOrder | src/papers_digest/ranking.py:41-42 | after the pops, the terms are the counter's terms without the query terms, in the same order |
| Ranking.ExtractKeywords | src/papers_digest/ranking.py:37-43 | the two loops and `most_common` compute `Keywords` |
| Ranking.CountTokens | src/papers_digest/ranking.py:38-40 | the loop over the papers builds the counter of all their tokens (`CountPapers`) |
| Ranking.PopTerms | src/papers_digest/ranking.py:41-42 | the loop over the query terms leaves the counter without them (`PopAll`) |
| Ranking.MostCommonEntries | src/papers_digest/ranking.py:43 | `most_common(k)` returns `min(k, n)` entries of the counter for `k >= 0` and none for `k < 0` |
| Ranking.MostCommonOrder | src/papers_digest/ranking.py:43 | counts never increase, and equal counts keep insertion order |
| Ranking.MostCommonMaximal | src/papers_digest/ranking.py:43 | an entry left out means the result is full and the entry's count is at most the last one returned |
| Ranking.KeywordsShape | src/papers_digest/ranking.py:37-43 | no keyword is a query term; at most `top_k` keywords; none repeated |
| Ranking.KeywordsByCount | src/papers_digest/ranking.py:37-43 | every keyword occurs in the papers, and keywords come by non-increasing total count |
| Ranking.KeywordsTieOrder | src/papers_digest/ranking.py:37-43 | keywords with the same total count come in the order in which they first occur among the papers' tokens |
| Ranking.KeywordsOccur | src/papers_digest/ranking.py:38-40 | every keyword is a token of some paper's title and abstract |
| Ranking.KeywordsMaximal | src/papers_digest/ranking.py:37-43 | a non-query term of the papers that is not returned occurs no more often than the last keyword, and the list is full |
| Summarizer.FirstTwo | src/papers_digest/summarizer.py:21 | `sentences[:2]` is a prefix of at most two sentences |
| Summarizer.Summarize | src/papers_digest/summarizer.py:17-22 | the summary is never empty |
| Summarizer.BlankFallback | src/papers_digest/summarizer.py:19-22 | a missing or whitespace-only abstract gives "Summary not available." |
| Summarizer.LeadsWithFirstSentence | src/papers_digest/summarizer.py:19-22 | for a non-blank abstract, the summary starts with the abstract's first sentence, which is a prefix of the stripped abstract |
| Summarizer.NoBoundaryUnchanged | src/papers_digest/summarizer.py:20-21 | an abstract without a sentence boundary is summarised as itself, stripped |
| Summarizer.NoLongerThanAbstract | src/papers_digest/summarizer.py:19-22 | for a non-blank abstract, the summary is no longer than the stripped abstract |
| Text.SplitSentences | src/papers_digest/summarizer.py:20 | the split yields at least one part, and exactly the text when there is no boundary |
| Text.SplitSentencesLength | src/papers_digest/ranker.py:39 | the parts plus one separator each fit in the text |
| Text.SplitSentencesFirst | src/papers_digest/summarizer.py:20 | the first part is a prefix of the text |
| Text.StripEmptyIffAllSpace | src/papers_digest/summarizer.py:22 | stripping gives the empty text iff the text is all whitespace |
| Text.SplitOnJoin | src/papers_digest/bot.py:34 | joining the parts of `split(",")` with the separator gives the text back |
| Text.JoinSplitOn | src/papers_digest/webapp.py:34 | splitting a join of separator-free parts gives the parts back |
| Text.SplitOnCount | src/papers_digest/bot.py:584-585 | `split(c)` gives one more part than there are `c` |
| Text.NatToStringRoundTrip | src/papers_digest/bot.py:34 | `int` of a number's decimal digits is that number |
| OpenAlex.MaxPos | src/papers_digest/sources/openalex.py:55-58 | `max_pos` bounds every listed position, and is 0 or a listed position |
| OpenAlex.AbstractFromOpenAlex | src/papers_digest/sources/openalex.py:48-64 | gives `Reconstruct(work)`; a non-empty abstract is returned as is; no abstract and no index give "" |
| OpenAlex.FillWords | src/papers_digest/sources/openalex.py:59-63 | a fresh list of `max_pos + 1` words, each position holding the word of the last entry listing it, or "" |
| OpenAlex.LastWriterWins | src/papers_digest/sources/openalex.py:59-63 | a position holds the word of the last entry that lists it |
| OpenAlex.UnlistedEmpty | src/papers_digest/sources/openalex.py:59 | a position no entry lists stays "" |
| OpenAlex.WordsOfPlacement | src/papers_digest/sources/openalex.py:55-63 | an index placing the words `ws` at positions `0..n-1` rebuilds exactly `ws` |
| OpenAlex.Reconstructs | src/papers_digest/sources/openalex.py:48-64 | such an index of non-empty, space-free words rebuilds the words joined by single spaces |
| Formatter.Escape | src/papers_digest/formatter.py:9-18 | escaped text is longer by exactly the number of backslashes and reserved characters in the input |
| Formatter.EscapeMarkdownV2 | src/papers_digest/formatter.py:9-18 | the backslash pass and the 18 `replace` passes together equal `Escape` |
| Formatter.EscapedStep | src/papers_digest/formatter.py:16-17 | pass `k` escapes its character and nothing else; earlier passes leave no unescaped instance |
| Formatter.EscapeRoundTrip | src/papers_digest/formatter.py:9-18 | dropping the backslash of each escape pair gives the text back |
| Formatter.EscapeInjective | src/papers_digest/formatter.py:9-18 | different texts never escape to the same text |
| Formatter.EscapeSafe | src/papers_digest/formatter.py:9-18 | every special character of escaped text is escaped |
| Formatter.SafeIsEscaped | src/papers_digest/formatter.py:9-18 | every safe text is the escape of its unescape |
| Formatter.EscapeAppend | src/papers_digest/formatter.py:9-18 | escaping distributes over concatenation |
| Formatter.HeadingLabelsEscaped | src/papers_digest/formatter.py:33-45 | the fixed header and recommendation labels escape to themselves |
| Formatter.EntryLabelsEscaped | src/papers_digest/formatter.py:61-71 | the fixed entry labels escape to themselves |
| Formatter.RecommendationsText | src/papers_digest/formatter.py:83-88 | the loop builds the heading and one bullet line per item |
| Formatter.PackEntries | src/papers_digest/formatter.py:47-79 | the entry loop leaves the messages and the open message of `Groups` over the header and entries |
| Formatter.PackBlocks | src/papers_digest/formatter.py:47-97 | the entries and recommendations, packed and flushed, give `Finish(Groups(blocks))` |
| Formatter.FormatDigest | src/papers_digest/formatter.py:21-99 | the method computes `Digest`: the header plus "No papers matched today." for no papers, else the packed blocks |
| Formatter.GroupsConcat | src/papers_digest/formatter.py:74-79 | packing neither loses, repeats nor reorders text |
| Formatter.GroupsFit | src/papers_digest/formatter.py:75 | a message over 4000 characters is a single block |
| Formatter.GroupsCount | src/papers_digest/formatter.py:74-79 | there are never more messages than blocks |
| Formatter.GroupsSingle | src/papers_digest/formatter.py:74-79 | blocks that together fit in 4000 characters make one message |
| Formatter.FinishCount | src/papers_digest/formatter.py:96-99 | at least one message is returned, and at most one per group |
| Formatter.DigestCount | src/papers_digest/formatter.py:21-99 | a digest has at least one message and at most one per block |
| Formatter.DigestFits | src/papers_digest/formatter.py:21-99 | when every block fits in 4000 characters, so does every message |
| Formatter.DigestSingle | src/papers_digest/formatter.py:21-99 | a digest whose blocks fit together is one message: all its text, right-stripped |
| Formatter.HeaderStart | src/papers_digest/formatter.py:34 | the digest opens with the `*` of its bold title |
| Bot.ParseTime | src/papers_digest/bot.py:583-593 | an accepted time has hour at most 23 and minute at most 59 |
| Bot.ParseTimeColons | src/papers_digest/bot.py:584-586 | text with no colon, or more than one, is rejected |
| Bot.ParseTimeSound | src/papers_digest/bot.py:583-593 | an accepted text has one colon, with digits around it (once stripped) that read as the hour and minute |
| Bot.ParseTimeRoundTrip | src/papers_digest/bot.py:583-593 | zero-padded `HH:MM` of a valid time parses back to it |
| Bot.PickSummarizer | src/papers_digest/bot.py:404-418 | OpenAI only with the LLM on, a key, and provider openai/auto; Ollama only with the LLM on and provider ollama/auto; LLM off gives the simple summariser |
| Bot.PickSummarizerTable | src/papers_digest/bot.py:408-418 | the full decision table per provider and key, with the global provider defaulting to "auto" |
| Bot.IdsOf | src/papers_digest/bot.py:34 | the ids are exactly the values of the entries that are digit strings once stripped |
| Bot.IdsOfDecimal | src/papers_digest/bot.py:34 | decimal entries read back as their numbers |
| Bot.AdminIdsList | src/papers_digest/bot.py:32-34 | a comma-joined list of decimal ids gives exactly those ids |
| Bot.IsAdmin | src/papers_digest/bot.py:37-42 | admin iff the chat is private, there is a user, and the user's id is on the list |
| Bot.Truncate | src/papers_digest/bot.py:434-435 | at most 4096 characters; short text unchanged; long text keeps its first 4093 characters and ends in "..." |
| Bot.TruncateIdempotent | src/papers_digest/bot.py:434-435 | truncating twice changes nothing more |
| Bot.SendMultipleMessages | src/papers_digest/bot.py:459-491 | success iff every part went out; parts and characters counted over the delivered parts; the error text is empty on success and the failure message otherwise |
| Bot.AllSentIffCount | src/papers_digest/bot.py:461-473 | all parts went out iff the count equals the number of parts |
| Bot.CharsSentBound | src/papers_digest/bot.py:466-469 | the characters counted are at most the total length, and equal to it when every part went out |
| Metrics.Min | src/papers_digest/metrics.py:96 | `min(scores)` is one of the scores and no greater than any |
| Metrics.Max | src/papers_digest/metrics.py:97 | `max(scores)` is one of the scores and no smaller than any |
| Metrics.Scores | src/papers_digest/metrics.py:85 | `[0.0]` when nothing was ranked, else one score per ranked paper |
| Metrics.AverageBetween | src/papers_digest/metrics.py:95-97 | the average lies between the minimum and the maximum |
| Metrics.DigestRecordScores | src/papers_digest/metrics.py:85-102 | the relevance figures are all 0 when nothing was ranked, and always `0 <= min <= avg <= max`; the counts are the lengths of the inputs |
| Metrics.AddSources | src/papers_digest/metrics.py:164-166 | a rate is added at 0.0 for each new source; existing rates are kept |
| Metrics.MetricsCollector.constructor | src/papers_digest/metrics.py:65-69 | a collector without saved metrics starts with every counter at zero, no source rates and empty times |
| Metrics.MetricsCollector.UpdateSystemMetrics | src/papers_digest/metrics.py:145-168 | one more digest, its papers added, the last digest time set, new sources given a zero rate, post counters untouched |
| Metrics.MetricsCollector.UpdatePostMetrics | src/papers_digest/metrics.py:170-177 | one more post, counted as a success or as a failure, so posts stay successes plus failures |
| Metrics.MetricsCollector.RecordDigest | src/papers_digest/metrics.py:71-107 | returns the record built from the arguments; one more digest, its papers added, the last digest time set to the record's, new sources given a zero rate; post counters, channel count and uptime start unchanged |
| Metrics.MetricsCollector.RecordPost | src/papers_digest/metrics.py:109-129 | returns the post record; one more post, counted as a success or as a failure; digest counters, rates, last digest time, channel count and uptime start unchanged |
| Metrics.SourcesOf | src/papers_digest/metrics.py:237-241 | the day's sources are exactly those named in some digest record |
| Metrics.PostsSplit | src/papers_digest/metrics.py:224-226 | successes plus failures equal the number of posts |
| Metrics.SummaryTotals | src/papers_digest/metrics.py:221-228 | the summary's post counts split the posts; its paper total sums the records' `papers_found` |
| Agents.BuildPlan | src/papers_digest/agents.py:22-24 | the plan carries the request and names every source the developer queries |
| Agents.FetchPapers | src/papers_digest/agents.py:31-37 | the results of the sources the plan names, concatenated in source order and deduplicated by URL |
| Agents.GatheredFromSelected | src/papers_digest/agents.py:33-36 | every gathered paper comes from a source the plan selects |
| Agents.FetchedPapers | src/papers_digest/agents.py:31-37 | the fetched papers come from selected sources, repeat no URL, and cover every gathered URL |
| Agents.PlanFetchesAll | src/papers_digest/agents.py:22-37 | with the architect's plan, no source is filtered out |
| Agents.Pair | src/papers_digest/agents.py:48-49 | `zip` gives `min(len(ranked), len(summaries))` items; item `i` has `ranked[i]`'s paper and score and summary `i` |
| Agents.PairItems | src/papers_digest/agents.py:48-49 | the `zip` loop builds exactly `Pair` of the ranked items and the summaries |
| Agents.Analyze | src/papers_digest/agents.py:44-51 | the report has the plan's query and date, the ranked papers paired with the summaries, and the recommendations |
| Agents.AnalyzedSorted | src/papers_digest/agents.py:45-49 | the report's items keep the ranking order (scores never increase) and are input papers with their own scores |
| Agents.Validate | src/papers_digest/agents.py:55-63 | "too few" iff fewer than `min_items` items; "no sources" iff no items; "no URL" iff some paper has an empty URL; no other issue; at most three issues, none repeated, in that order |
| Agents.AnyMissingUrl | src/papers_digest/agents.py:61 | the scan finds a missing URL iff some item's paper has an empty URL |
| WebApp.BeforeTransitive | src/papers_digest/webapp.py:47 | Python's string order is transitive |
| WebApp.BeforeTotal | src/papers_digest/webapp.py:47 | any two different strings are ordered |
| WebApp.PutFacts | src/papers_digest/webapp.py:39 | `data[key] = value` sets that key, keeps every other key's value, and keeps keys distinct |
| WebApp.RemoveLookup | src/papers_digest/webapp.py:42 | popping `hash` removes it and keeps every other key's value |
| WebApp.SplitPair | src/papers_digest/webapp.py:37-38 | a pair without `=` is skipped; otherwise the key has no `=` and key, `=`, value rebuild the pair |
| WebApp.ParseInitData | src/papers_digest/webapp.py:34-39 | the parse loop computes `Parsed` of the `&`-separated pairs |
| WebApp.ParsedDistinct | src/papers_digest/webapp.py:35-39 | the parsed dictionary has no repeated key |
| WebApp.ParsedLastWins | src/papers_digest/webapp.py:36-39 | a repeated key keeps the value of its last pair |
| WebApp.ParsedUnnamed | src/papers_digest/webapp.py:36-39 | a key no pair names is absent, so pairs without `=` add nothing |
| WebApp.SortSorted | src/papers_digest/webapp.py:47 | sorting the items is a permutation with strictly increasing keys |
| WebApp.CheckFieldsProperties | src/papers_digest/webapp.py:42-47 | the check string's fields are exactly the parsed fields except `hash`, each with its last value, in strictly increasing key order |
| WebApp.VerifyInitData | src/papers_digest/webapp.py:26-63 | computes `Verified`: an empty token is refused, and accepted init data always carries a `hash` field |
| WebApp.SignedInitData | src/papers_digest/webapp.py:26-63 | init data of fields plus `hash=h` is accepted iff `h` is the digest of the fields sorted by key |
| WebApp.ParsedLines | src/papers_digest/webapp.py:34-39 | `key=value` lines with distinct, `=`-free keys parse back to those fields |
| WebApp.Merge | src/papers_digest/webapp.py:382-393 | present fields replace the stored ones (text stripped); absent ones and the channel id stay |
| WebApp.MergeIdempotent | src/papers_digest/webapp.py:382-393 | applying the same update twice changes nothing more |
| WebApp.MergeFull | src/papers_digest/webapp.py:382-393 | an update naming every field makes the stored values irrelevant |
| WebApp.NewChannel | src/papers_digest/webapp.py:342-346 | refused iff the channel id is absent or whitespace; otherwise both fields stripped, the id non-empty |
| WebApp.ChannelStore.UpdateChannel | src/papers_digest/webapp.py:370-396 | 401 and no change when unverified; 404 and no change for an unknown channel; otherwise only that channel is merged |
| WebApp.ChannelStore.DeleteChannel | src/papers_digest/webapp.py:355-367 | 401 and no change when unverified; 404 and no change for an unknown channel; otherwise only that channel is removed |

## Left out

- **Network I/O.**
  - The paper sources' HTTP clients, `OpenAlexSource.fetch`, the OpenAI and Ollama summarisers and `llm.py` are not modelled.
  - What they return enters the model as parameters: `found` in `FetchPapers`, `summaries` and `recommendations` in `Analyze`.
- **Telegram, Flask, scheduler.**
  - Telegram handlers, the APScheduler jobs and the next-post time arithmetic are not modelled.
  - Flask request handling, the HTML page and `get_channels` are not modelled.
  - `create_channel` is modelled only up to its validation (`NewChannel`), because `add_channel` is not part of this model.
- **WebApp.VerifyInitData: HMAC.**
  - HMAC-SHA-256 (the secret key from "WebAppData" and the hex digest) is the parameter `sign` of the bot token and the check string.
  - The `except` branch is not modelled; with text input nothing in the parse raises.
- **Bot.SendMultipleMessages:**
  - `delivered[i]` stands for the outcome of `_safe_send_message`, including its retries and its fallback without a parse mode.
  - `total_chars` counts untruncated lengths, as the source does.
  - The half-second delay is not modelled.
  - Recording the post is `MetricsCollector.RecordPost`.
- **Metrics: files and floats.**
  - The JSONL/JSON file I/O and `datetime.now()` are left out; timestamps are parameters.
  - The float running averages `avg_papers_per_digest` and `avg_generation_time` are not kept.
  - Relevance averages use exact reals, not floats.
  - Metrics.Summary: takes the day's records as lists instead of reading the day's files; its averages are over exact reals.
- Metrics.DigestRecordScores: `min <= avg <= max` holds in exact arithmetic only. With floats, `sum(scores) / len(scores)` of equal scores can round above the maximum (three scores of `1 + (1 + ln 5)` average to one ulp more). Metrics.AverageBetween states the same ordering, over the reals as well.
- **Numerics.** `math.sqrt` and `math.log` are parameters. They are constrained only to keep their sign: `sqrt` positive on positives, `ln(1) = 0`, `ln` non-negative from 1 on.
- **Text.** Text is ASCII: `str.lower`, `str.isspace` and `str.isdigit` are modelled on ASCII characters. `int('²')` and other non-ASCII digits are out of scope.
- **Dictionary order.** Python dictionaries are modelled as lists in insertion order where order matters (the `Counter`, the init-data dictionary). Elsewhere they are Dafny maps.
- **Formatter.FormatDigest: labels.** The fixed labels are placed unescaped. `HeadingLabelsEscaped` and `EntryLabelsEscaped` prove that escaping leaves them unchanged. The escaped date and the entry number are in the layout as the source writes them.
- **Bot.PickSummarizer:** a channel's `None` provider is the empty string. The summariser objects are reduced to their kind.
- WebApp.Merge and WebApp.NewChannel: the JSON body is taken as well typed. Text fields are strings and `use_llm`/`enabled` are booleans, each present or absent. Not modelled:
  - the truthiness coercion of `bool(...)` (`"false"` becomes true, `0` false);
  - the HTTP 500 that `.strip()` raises on a `null` or non-string field, including an explicit `null` `channel_id`, which the model treats as absent;
  - a body that is not JSON or is `null`.
- **`settings.py`.** The JSON persistence and the single-channel `Settings` record are not modelled.
- **`pipeline.py` and `cli.py`.** These are not modelled: they are glue over the modelled parts.
