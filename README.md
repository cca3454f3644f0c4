# Aranea-Rete crawler and search core in Dafny

This project models the deterministic core of the Aranea-Rete web crawler and search engine (`google-v2.0-webscraper`):

- **Seeding** (`seeds.dfy`, `index.ts`). The top-sites file becomes the `top_sites` table once. Its lines are deduplicated and empty lines dropped, and ranks run 1..n.
- **Frontier scheduler** (`scheduler.dfy`, `loadTopSites.ts`). One round of the crawl loop:
  - the first-pass and backlog where-clauses;
  - the `(rank, attempt_count, next_attempt)` ordering and the batch limit;
  - the one-way switch to the backlog;
  - the `site.update` each crawl outcome performs;
  - the exponential retry backoff.
- **Crawl bookkeeping** (`crawler.ts`, in `crawler.dfy`):
  - the classification of a failure message as permanent or retryable;
  - the page-text token filter and lemmatisation;
  - the per-word occurrence counts and first positions;
  - how `saveData` stores a page in the search index.
- **robots.txt** (`robots.dfy`, `RobotsParser.ts`). The root-disallow scanner, proved equal to "a `user-agent: *` line comes before a `disallow: /` line".
- **Ranking**:
  - `server.dfy` (`server.ts`): the query normalisation, the fetch, the grouping of rows by website, the rank score, the score fusion and the descending sort;
  - `tfidf.dfy` (`tfIdf.ts`): the TF-IDF cosine similarity;
  - `proximity.dfy` (`proximity.ts`): the cluster/proximity score.

Shared pieces:

- `schema.dfy`: the stored relations. `top_sites` is a `TopSiteTable` class. `websites`, `keywords` and `website_keywords` form a `SearchIndex` class.
- `text.dfy`: the JavaScript string operations the code relies on (`trim`, `toLowerCase`, `replace`, `split`).
- `seqs.dfy`: generic sequence operations (`new Set` order, `filter`, stable `sort`, `map`, `slice`).
- `wrappers.dfy`: `Option`.

Things the model takes as parameters:

- the current time (an integer number of milliseconds);
- the page, DNS and robots.txt results of one crawl (`Crawler.PageEnv`);
- the lemma table (a `map`);
- the natural logarithm and square root (`ln`, `sqrt`);
- the elapsed time of a query.

Behaviour of the code that the model keeps as written, although a reader might expect otherwise:

- A `website_keywords` row is written per distinct word, carrying only the position of the word's first occurrence (`crawler.ts:226-240`).
- A retry is scheduled from the clock reading when the crawl finished (`Date.now()`), not from the round's `now`.
- The robots.txt wildcard flag is never reset by a later `user-agent` line, so a `disallow: /` inside a later block for a named crawler still counts.
- Results with equal scores keep their group order, because JavaScript's sort is stable (`Seqs.SortByStable`).

## Model

| member | source | states |
|---|---|---|
| Schema.NewOrigin | google-v2.0-webscraper/src/models/TopSite.ts:6-12 | a seeded row has the given url and rank, is unscraped, has no attempts, no next attempt and no error |
| Schema.TopSiteTable.Count | google-v2.0-webscraper/src/index.ts:10 | `TopSite.count()` is the number of rows |
| Schema.TopSiteTable.Update | google-v2.0-webscraper/src/util/loadTopSites.ts:75 | `site.update` replaces exactly the row of that site, keeping its url |
| Schema.SearchIndex.DocumentCount | google-v2.0-webscraper/src/api/server.ts:26-28 | `Website.count()` is the number of stored websites |
| Seqs.Distinct | google-v2.0-webscraper/src/index.ts:13 | `Array.from(new Set(s))` holds exactly the elements of `s`, each once |
| Seqs.DistinctOrder | google-v2.0-webscraper/src/index.ts:13 | `new Set` keeps elements in order of first occurrence |
| Seqs.Filter | google-v2.0-webscraper/src/index.ts:13 | `filter` keeps exactly the elements satisfying the predicate, each at most as often as in the input |
| Seqs.FilterCounts | google-v2.0-webscraper/src/index.ts:13 | `filter` keeps every occurrence of an element satisfying the predicate and none of the others |
| Seqs.FilterOrder | google-v2.0-webscraper/src/index.ts:13 | the kept elements appear in the input in the same relative order |
| Seqs.SortBy | google-v2.0-webscraper/src/api/server.ts:106 | `sort` returns a permutation of its input |
| Seqs.SortBySorted | google-v2.0-webscraper/src/api/server.ts:106 | with a total preorder as comparator, the sorted sequence is ordered |
| Seqs.SortByKeep | google-v2.0-webscraper/src/api/server.ts:106 | sorting leaves a set of mutually ordered elements, read from the front, in their input order |
| Seqs.SortByStable | google-v2.0-webscraper/src/api/server.ts:106 | `sort` is stable: with a total preorder as comparator, the elements equivalent to any given one keep their input order |
| Seqs.SortByMap | google-v2.0-webscraper/src/api/server.ts:106-109 | mapping a sorted sequence gives a permutation of mapping the unsorted one |
| Seqs.ScanDecidesPrecedes | google-v2.0-webscraper/src/util/RobotsParser.ts:9-32 | a left-to-right scan with a "seen first" flag finds a later match iff some first-kind element precedes a later-kind one |
| Text.TrimStart | google-v2.0-webscraper/src/util/RobotsParser.ts:10 | the trimmed string is a suffix of the input that does not start with whitespace |
| Text.Trim | google-v2.0-webscraper/src/util/RobotsParser.ts:10 | `trim` neither starts nor ends with whitespace and is no longer than the input |
| Text.TrimStartDropsSpace | google-v2.0-webscraper/src/util/RobotsParser.ts:10 | what `trimStart` drops is whitespace only |
| Text.TrimEndDropsSpace | google-v2.0-webscraper/src/util/RobotsParser.ts:10 | what `trimEnd` drops is whitespace only |
| Text.TrimInterior | google-v2.0-webscraper/src/util/RobotsParser.ts:10 | `trim` is a contiguous piece of the input with only whitespace before and after it |
| Text.TrimNoEdgeSpace | google-v2.0-webscraper/src/util/RobotsParser.ts:16-17 | `trim` leaves a string without edge whitespace unchanged |
| Text.CollapseSpacesKeeps | google-v2.0-webscraper/src/util/RobotsParser.ts:13 | `replace(/\s+/g, " ")` introduces no character other than the space |
| Text.SplitOnJoin | google-v2.0-webscraper/src/util/RobotsParser.ts:3 | joining the pieces of `split(c)` with `c` gives the input back |
| Text.SplitOnAbsent | google-v2.0-webscraper/src/util/RobotsParser.ts:13 | a string without the separator splits into itself alone |
| Text.SplitOnFirst | google-v2.0-webscraper/src/util/RobotsParser.ts:13 | the first piece of `split(c)` is the text before the first `c`, and the rest are the pieces of what follows it |
| Text.SplitOnSecond | google-v2.0-webscraper/src/util/RobotsParser.ts:13 | the second piece of `split(c)` is the text between the first and second `c` (or the end) |
| Text.ReplaceNonWord | google-v2.0-webscraper/src/api/server.ts:61 | each character that is neither a word character nor whitespace becomes a space; the rest stay |
| Text.SplitOn | google-v2.0-webscraper/src/util/RobotsParser.ts:3 | `split("\n")` gives at least one piece, none containing the separator |
| Text.SplitSpaceRuns | google-v2.0-webscraper/src/api/server.ts:62 | `split(/\s+/)` gives at least one piece, none containing whitespace |
| Text.SplitSpaceRunsJoin | google-v2.0-webscraper/src/crawler.ts:187-188 | the pieces of `split(/\s+/)` joined with single spaces give `replace(/\s+/g, " ")` of the input |
| Text.SplitSpaceRunsNoSpace | google-v2.0-webscraper/src/crawler.ts:188 | a string with no whitespace is one piece |
| Text.SplitSpaceRunsChars | google-v2.0-webscraper/src/crawler.ts:188 | every character of a piece is a character of the split string |
| Text.SplitLines | google-v2.0-webscraper/src/index.ts:13 | `split(/\r?\n/)` gives at least one line, none containing a line feed |
| Text.SplitLinesBySplitOn | google-v2.0-webscraper/src/index.ts:13 | `split(/\r?\n/)` is `split("\n")` after every `\r\n` has become `\n` |
| Text.SplitLinesJoin | google-v2.0-webscraper/src/index.ts:13 | the lines joined with `\n` give the input with every `\r\n` turned into `\n` |
| Seeds.SeedUrls | google-v2.0-webscraper/src/index.ts:13 | seed urls are pairwise distinct and non-empty, and are exactly the non-empty lines of the file |
| Seeds.SeedOrder | google-v2.0-webscraper/src/index.ts:13 | seed urls keep the order in which their lines first occur |
| Seeds.SeedingNonEmpty | google-v2.0-webscraper/src/index.ts:10-17 | a file with any character other than a line break seeds at least one site |
| Seeds.RankedRows | google-v2.0-webscraper/src/index.ts:15 | the inserted rows carry the seed urls in order, with ranks exactly 1..n and default columns |
| Seeds.EnsureTopSites | google-v2.0-webscraper/src/index.ts:9-20 | an empty table becomes the ranked seed rows; a non-empty table is left unchanged; the table stays valid |
| Seeds.EnsureTopSitesTwice | google-v2.0-webscraper/src/index.ts:10-11 | seeding twice from an empty table gives the same rows as seeding once |
| Scheduler.BackoffBounds | google-v2.0-webscraper/src/util/loadTopSites.ts:84-86 | a retry waits between 2 000 and 1 024 000 ms |
| Scheduler.BackoffMonotone | google-v2.0-webscraper/src/util/loadTopSites.ts:84-86 | the delay never shrinks as the attempt count grows |
| Scheduler.OrderLeTotalPreorder | google-v2.0-webscraper/src/util/loadTopSites.ts:38-42 | `ORDER BY rank, attempt_count, next_attempt` (nulls last) is a total preorder |
| Scheduler.SelectBatch | google-v2.0-webscraper/src/util/loadTopSites.ts:36-44 | a batch holds at most `CONCURRENCY` rows |
| Scheduler.OrderedSelection | google-v2.0-webscraper/src/util/loadTopSites.ts:38-42 | the eligible rows are fetched in `(rank, attempt_count, next_attempt)` order |
| Scheduler.SelectBatchFromTable | google-v2.0-webscraper/src/util/loadTopSites.ts:22-44 | every fetched row is a table row, fetched once, that the mode's where-clause selects |
| Scheduler.SelectBatchIsTopK | google-v2.0-webscraper/src/util/loadTopSites.ts:36-44 | the batch is ordered, and an eligible row left out means the batch is full of rows ordered no later than it |
| Scheduler.BatchUrlsUnique | google-v2.0-webscraper/src/util/loadTopSites.ts:36-44 | a batch from a table with unique urls has unique urls, each the table row with that url |
| Scheduler.Settle | google-v2.0-webscraper/src/util/loadTopSites.ts:73-106 | every outcome's update keeps the site's url and rank |
| Scheduler.SettleEffects | google-v2.0-webscraper/src/util/loadTopSites.ts:73-106 | success and permanent failure set `scraped` and their error, and so does an unexpected exception with its message; a retry changes only the attempt count (one more), the next attempt (the crawl's end plus the backoff for the new count, 2 s to 1024 s later) and the error text "retryable error, deferred" |
| Scheduler.DeferredSiteWaits | google-v2.0-webscraper/src/util/loadTopSites.ts:82-94 | a deferred site is selected in neither mode before its backoff has passed |
| Scheduler.SettleAll | google-v2.0-webscraper/src/util/loadTopSites.ts:59-113 | after a round, exactly the rows of the batch's urls carry their outcome's update |
| Scheduler.UnattemptedNeverInBacklog | google-v2.0-webscraper/src/util/loadTopSites.ts:22-28 | the backlog where-clause never selects a site that was never attempted |
| Scheduler.PrematureSwitchStarvesSite | google-v2.0-webscraper/src/util/loadTopSites.ts:47-49 | the switch as written fires while a never-attempted site waits, and that site can then never be selected |
| Scheduler.FirstPassDoneImpliesSwitch | google-v2.0-webscraper/src/util/loadTopSites.ts:47-49 | once no never-attempted unscraped site is left, the switch as written also fires |
| Scheduler.EmptyFirstPassBatchIsDone | google-v2.0-webscraper/src/util/loadTopSites.ts:47-56 | an empty first-pass batch from a valid table means the first pass is done |
| Scheduler.SettleAllStep | google-v2.0-webscraper/src/util/loadTopSites.ts:73-103 | settling one more url changes exactly the row with that url |
| Scheduler.SettledTableValid | google-v2.0-webscraper/src/util/loadTopSites.ts:73-106 | the outcome updates keep urls unique and "attempted iff deferred", and they keep a completed first pass completed |
| Scheduler.Frontier.constructor | google-v2.0-webscraper/src/util/loadTopSites.ts:17-18 | the loop starts in first-pass mode over a valid table |
| Scheduler.Frontier.Step | google-v2.0-webscraper/src/util/loadTopSites.ts:20-113 | one round as written: it fetches the batch of the current mode, switches to the backlog when every fetched site was attempted before (never back), gives every batch row its outcome and keeps the table valid |
| Scheduler.Frontier.StepCorrected | google-v2.0-webscraper/src/util/loadTopSites.ts:20-113 | one round with the intended switch: as `Step`, but the backlog mode starts only once no never-attempted unscraped site is left, and the whole frontier stays valid |
| Scheduler.Frontier.ApplyOutcomes | google-v2.0-webscraper/src/util/loadTopSites.ts:59-113 | applying the batch's tasks one by one updates exactly the batch rows, each from the row it was fetched as |
| Crawler.IncludesAnyOf | google-v2.0-webscraper/src/crawler.ts:123-132 | `codes.some(code => msg.includes(code))` holds iff some code occurs in the message |
| Crawler.ClassifyError | google-v2.0-webscraper/src/crawler.ts:121-139 | a failure is never "indexed". The DNS marker means permanent; a listed code without it means retryable; no listed code means permanent |
| Crawler.DnsFailureWins | google-v2.0-webscraper/src/crawler.ts:121-122 | a message naming the DNS failure is permanent even when it also names a retryable code |
| Crawler.ValidateUrlFailureIsPermanent | google-v2.0-webscraper/src/crawler.ts:147-154 | the error `validateUrl` throws is always classified permanent |
| Crawler.RetryableCodeIsRetryable | google-v2.0-webscraper/src/crawler.ts:123-139 | any message containing one of the eight codes and not the DNS marker is retryable |
| Crawler.ContentTokens | google-v2.0-webscraper/src/crawler.ts:186-189 | every kept token matches `^[a-z]{2,30}$`, and the kept tokens are exactly such pieces of the split text |
| Crawler.MixedTokenDroppedWhole | google-v2.0-webscraper/src/crawler.ts:186-189 | a run of word characters with a digit, `_` or capital is dropped whole, not split |
| Crawler.LetterTokenKept | google-v2.0-webscraper/src/crawler.ts:189 | a token of 2 to 30 lower-case letters is kept as it is |
| Crawler.Lemmatize | google-v2.0-webscraper/src/util/lemmatizedMap.ts:15 | a non-empty lemma listed for the lower-cased word is returned; with no entry the result is the word; in every case it is the word or a non-empty lemma of it |
| Crawler.PageWords | google-v2.0-webscraper/src/crawler.ts:182-191 | the page words are the content tokens of the lower-cased text, each lemmatised, in page order |
| Crawler.CountOccurrences | google-v2.0-webscraper/src/crawler.ts:226-230 | there is one entry per distinct word, holding its number of occurrences and the 1-based position of its first occurrence |
| Crawler.OccurrenceStep | google-v2.0-webscraper/src/crawler.ts:226-230 | one more word adds one occurrence, keeps earlier first positions, and gives a new word its own position |
| Crawler.CountsSumToWordCount | google-v2.0-webscraper/src/crawler.ts:209 | the counts of the distinct words sum to the number of words, the stored `word_count` |
| Crawler.FirstPositionsDistinct | google-v2.0-webscraper/src/crawler.ts:227 | first positions lie in `[1, |words|]` and differ for different words |
| Crawler.CountAtMostLength | google-v2.0-webscraper/src/crawler.ts:228 | no word occurs more often than there are words |
| Crawler.BumpedCounts | google-v2.0-webscraper/src/crawler.ts:216-224 | each distinct word's counter rises by exactly one and a new keyword ends at 1; other counters are unchanged |
| Crawler.PostingsFor | google-v2.0-webscraper/src/crawler.ts:232-240 | one `website_keywords` row per distinct word, in first-occurrence order, for the page's url |
| Crawler.NewWebsite | google-v2.0-webscraper/src/crawler.ts:204-211 | the title is a prefix of at most 255 characters and the description one of at most 500; a shorter one is kept whole. The word count is the number of words |
| Crawler.SaveData | google-v2.0-webscraper/src/crawler.ts:194-247 | the save succeeds iff the row fits its columns. On success the website, the keyword counters and the postings are added; on failure all three are unchanged. The index stays valid |
| Crawler.WritePostings | google-v2.0-webscraper/src/crawler.ts:226-240 | the bulk insert appends exactly the page's postings and leaves the rest alone |
| Crawler.CountDocumentUnder | google-v2.0-webscraper/src/crawler.ts:215-224 | the keyword loop raises every distinct word's counter once, or reports a word too long for its column |
| Crawler.SavedIndexValid | google-v2.0-webscraper/src/crawler.ts:204-240 | a successful save leaves a valid index |
| Crawler.StoredPostingsValid | google-v2.0-webscraper/src/crawler.ts:232-240 | new postings name stored keywords, occur between 1 and `word_count` times and have positive positions |
| Crawler.SingleTokenPage | google-v2.0-webscraper/src/crawler.ts:182-191 | a page whose text is one content token has that token's lemma, or the token itself, as its one word |
| Crawler.ConstructorLemmaPage | google-v2.0-webscraper/src/crawler.ts:182-191 | the page text `constructors` with the lemma entry `"constructors": "constructor"` has the one word `constructor` |
| Crawler.ConstructorWordLosesItsEntry | google-v2.0-webscraper/src/crawler.ts:226-230 | that page's one word `constructor` is a distinct word, yet the plain-object accumulator gives it no `occ` entry |
| Crawler.CheckRobots | google-v2.0-webscraper/src/crawler.ts:168-179 | crawling is allowed unless robots.txt was fetched and forbids the root |
| Crawler.Crawl | google-v2.0-webscraper/src/crawler.ts:87-144 | a page is indexed iff it resolves, robots.txt allows it, it responds, and it has words that can be stored. A DNS failure or a forbidding robots.txt is permanent. Past those checks, a throwing navigation or page evaluation is classified by its message, a missing or non-OK response and a page without words are permanent, and a failed save is classified by the storage error. Only an indexed page changes the index, which stays valid |
| Robots.IsRootForbidden | google-v2.0-webscraper/src/util/RobotsParser.ts:2-35 | the scanner answers true iff some `user-agent: *` line precedes some `disallow: /` line |
| Robots.ScanLines | google-v2.0-webscraper/src/util/RobotsParser.ts:5-32 | the loop with its two flags, for any two line tests that no line passes both, answers true iff a line passing the first test precedes one passing the second |
| Robots.NoColonSkipped | google-v2.0-webscraper/src/util/RobotsParser.ts:13-14 | a line without a colon is skipped |
| Robots.ParseByNormalised | google-v2.0-webscraper/src/util/RobotsParser.ts:10-13 | a line is read from its trimmed, lower-cased, whitespace-collapsed form; an empty line reads as nothing |
| Robots.ReadAtColons | google-v2.0-webscraper/src/util/RobotsParser.ts:13-17 | the key is the text before the first colon and the value the text up to the second colon or the end, both trimmed; the line is skipped when either is empty |
| Robots.EmptyKeySkipped | google-v2.0-webscraper/src/util/RobotsParser.ts:14 | a line starting with a colon is skipped |
| Robots.EmptyValueSkipped | google-v2.0-webscraper/src/util/RobotsParser.ts:14 | a line whose first colon ends it or is followed by another colon is skipped |
| Robots.KeyValueShape | google-v2.0-webscraper/src/util/RobotsParser.ts:13-17 | `key:value` followed by the end or a colon reads as the key and the trimmed value |
| Robots.DisallowValue | google-v2.0-webscraper/src/util/RobotsParser.ts:13-27 | a `disallow:` line counts as `disallow: /` exactly when its value up to the next colon, trimmed, is `/` |
| Robots.DisallowPathNotRoot | google-v2.0-webscraper/src/util/RobotsParser.ts:13-27 | `disallow: /path` and `disallow: / # comment` do not forbid the root |
| Robots.DisallowColonSuffixIsRoot | google-v2.0-webscraper/src/util/RobotsParser.ts:13-27 | `disallow: /:x` reads as `disallow: /`: the text after a second colon is dropped |
| Robots.ParseLineIgnoresCase | google-v2.0-webscraper/src/util/RobotsParser.ts:10 | matching ignores case |
| Robots.TrimIgnoresSurroundingSpace | google-v2.0-webscraper/src/util/RobotsParser.ts:10 | `trim` ignores surrounding whitespace |
| Robots.ParseLineIgnoresSurroundingSpace | google-v2.0-webscraper/src/util/RobotsParser.ts:10 | matching ignores whitespace around a line |
| Robots.ParseLineByNormalForm | google-v2.0-webscraper/src/util/RobotsParser.ts:13 | lines with the same whitespace-collapsed, lower-cased form parse alike |
| Robots.WildcardFlagNeverReset | google-v2.0-webscraper/src/util/RobotsParser.ts:20-26 | a `disallow: /` applies even when another agent line comes between it and `user-agent: *` |
| Robots.EarlyDisallowIgnored | google-v2.0-webscraper/src/util/RobotsParser.ts:26 | a `disallow: /` before the wildcard line does not count |
| Robots.EmptyRobotsAllowsRoot | google-v2.0-webscraper/src/util/RobotsParser.ts:3-11 | an empty robots.txt forbids nothing |
| Proximity.Walk | google-v2.0-webscraper/src/api/scoring/proximity.ts:26-36 | after a non-empty keyword list the open cluster is non-empty |
| Proximity.Clusters | google-v2.0-webscraper/src/api/scoring/proximity.ts:38-42 | there are clusters iff there are keywords |
| Proximity.FulfilmentBySize | google-v2.0-webscraper/src/api/scoring/proximity.ts:31-40 | the summed cluster shares are the summed cluster sizes over the query length |
| Proximity.WalkCounts | google-v2.0-webscraper/src/api/scoring/proximity.ts:26-36 | every keyword adds its word to exactly one cluster, and one cluster closes per repeated word |
| Proximity.ClusterSizes | google-v2.0-webscraper/src/api/scoring/proximity.ts:26-42 | cluster sizes add up to the number of keywords |
| Proximity.FulfilmentIsCoverage | google-v2.0-webscraper/src/api/scoring/proximity.ts:26-42 | `fulfillmentTotal` equals the keyword count over the query length |
| Proximity.ClusterCount | google-v2.0-webscraper/src/api/scoring/proximity.ts:30-42 | a non-empty keyword list has one cluster more than it has repeated words |
| Proximity.ScoreClosedForm | google-v2.0-webscraper/src/api/scoring/proximity.ts:59-62 | the score is `(1 - totalDist/|kws|)` times `(|kws|/|query|)/(1 + repeats)` |
| Proximity.EmptyGroupScoresZero | google-v2.0-webscraper/src/api/scoring/proximity.ts:59-62 | a group without keywords scores 0 |
| Proximity.GapTotalBounds | google-v2.0-webscraper/src/api/scoring/proximity.ts:49-56 | with strictly increasing positions the counted gaps sum to between 0 and their number times the query length |
| Proximity.AdjacentQueryWordsScoreOne | google-v2.0-webscraper/src/api/scoring/proximity.ts:26-62 | query `[a, b]` met at positions 1 and 2 scores exactly 1 |
| Proximity.SpreadKeywordsScoreNegative | google-v2.0-webscraper/src/api/scoring/proximity.ts:59-62 | the score is not clamped: three words four positions apart score -1 |
| Proximity.GetProximities | google-v2.0-webscraper/src/api/scoring/proximity.ts:16-67 | one score per group, in group order, each the group's proximity score |
| Proximity.GroupProximity | google-v2.0-webscraper/src/api/scoring/proximity.ts:20-64 | the loop body computes the group's proximity score |
| Proximity.BuildClusters | google-v2.0-webscraper/src/api/scoring/proximity.ts:20-42 | the cluster loop yields the clusters, their fulfilment total and the positions of the keywords |
| Proximity.SumGaps | google-v2.0-webscraper/src/api/scoring/proximity.ts:49-56 | the gap loop sums exactly the gaps at most the query length |
| TfIdf.QueryShares | google-v2.0-webscraper/src/api/scoring/tfIdf.ts:25-28 | every query word, and only a query word, has a positive share |
| TfIdf.QueryShareIsFrequency | google-v2.0-webscraper/src/api/scoring/tfIdf.ts:25-28 | a word's share times the query length is its count in the query |
| TfIdf.SingleWordQueryShare | google-v2.0-webscraper/src/api/scoring/tfIdf.ts:25-28 | a one-word query gives that word the share 1 |
| TfIdf.SumsNonNegative | google-v2.0-webscraper/src/api/scoring/tfIdf.ts:45-47 | `sumQ` and `sumD` are never negative |
| TfIdf.UnqueriedKeywordAddsNothing | google-v2.0-webscraper/src/api/scoring/tfIdf.ts:43-47 | a keyword not in the query leaves `dot` and `sumQ` unchanged |
| TfIdf.NoSharedWordNoDot | google-v2.0-webscraper/src/api/scoring/tfIdf.ts:43-47 | without a query word among the keywords, `dot` and `sumQ` are 0 |
| TfIdf.NoSharedWordScoresZero | google-v2.0-webscraper/src/api/scoring/tfIdf.ts:39-52 | a group sharing no word with the query has similarity 0 |
| TfIdf.EmptyGroupScoresZero | google-v2.0-webscraper/src/api/scoring/tfIdf.ts:51-52 | a group without keywords has similarity 0 (the zero-denominator guard) |
| TfIdf.SqrtOfSquare | google-v2.0-webscraper/src/api/scoring/tfIdf.ts:51 | an exact square root returns `w` for `w * w` when `w > 0` |
| TfIdf.CosineOfAligned | google-v2.0-webscraper/src/api/scoring/tfIdf.ts:51-52 | when the norms multiply to the positive dot product the similarity is 1 |
| TfIdf.SingleTermMatchScoresOne | google-v2.0-webscraper/src/api/scoring/tfIdf.ts:39-52 | a one-word query matching a page's only keyword has similarity 1 |
| TfIdf.QueryTermCounts | google-v2.0-webscraper/src/api/scoring/tfIdf.ts:17-22 | each distinct query word maps to its number of occurrences, and no other word maps |
| TfIdf.QueryTfs | google-v2.0-webscraper/src/api/scoring/tfIdf.ts:25-28 | the `queryTfs` loop builds exactly the query shares |
| TfIdf.Accumulate | google-v2.0-webscraper/src/api/scoring/tfIdf.ts:39-48 | the inner loop computes the sums over the keywords of qryTf·docWeight, qryTf² and docWeight² |
| TfIdf.GetTfIdfScores | google-v2.0-webscraper/src/api/scoring/tfIdf.ts:30-57 | one `[similarity, website]` pair per group, in group order, with that group's website and similarity |
| Server.QueryWords | google-v2.0-webscraper/src/api/server.ts:59-63 | every normalised query token has at least two characters, each a lower-case letter, a digit or `_` |
| Server.NormalTokenKept | google-v2.0-webscraper/src/api/server.ts:59-63 | a query that is already one such token normalises to itself (digits and `_` kept) |
| Server.LemmatizedQuery | google-v2.0-webscraper/src/api/server.ts:64 | the query words lemmatised one by one, in order |
| Server.ByPositionTotal | google-v2.0-webscraper/src/api/server.ts:46 | ordering by position is a total preorder |
| Server.Join | google-v2.0-webscraper/src/api/server.ts:34-45 | every posting is joined with its keyword's document count and its website |
| Server.MatchedRows | google-v2.0-webscraper/src/api/server.ts:31-48 | one row per posting whose word is in the query; each is in the query, names a stored website, and has a positive document count and between 1 and `word_count` occurrences |
| Server.MatchedRowsExact | google-v2.0-webscraper/src/api/server.ts:31-48 | every matched row is the join of a posting whose word is in the query, every such posting gives a matched row, and the query filter keeps each posting exactly as often as it is stored |
| Server.FetchKeywords | google-v2.0-webscraper/src/api/server.ts:31-48 | the fetched rows are the matched rows as a permutation ordered by ascending position, each still a valid row |
| Server.HitsForAbsent | google-v2.0-webscraper/src/api/server.ts:77-79 | a website none of the scanned rows belongs to has no keywords yet |
| Server.Grouping | google-v2.0-webscraper/src/api/server.ts:74-90 | one group per distinct website url, in order of first appearance |
| Server.SiteMapStep | google-v2.0-webscraper/src/api/server.ts:75-85 | each row adds its keyword to its website's group, creating the group when the url is new |
| Server.GroupRows | google-v2.0-webscraper/src/api/server.ts:74-90 | the `siteMap` loop and `Array.from(siteMap.values())` give exactly the grouping |
| Server.HitsForContains | google-v2.0-webscraper/src/api/server.ts:80-85 | every row's keyword is among its website's keywords |
| Server.HitOrigin | google-v2.0-webscraper/src/api/server.ts:80-85 | every keyword of a website comes from a row of that website |
| Server.HitsInRowOrder | google-v2.0-webscraper/src/api/server.ts:75-85 | a website's keywords keep the order of their rows |
| Server.GroupOrigin | google-v2.0-webscraper/src/api/server.ts:76-85 | every group is non-empty, carries the website of one of its rows, and holds only keywords of rows of that website |
| Server.GroupHitsByPosition | google-v2.0-webscraper/src/api/server.ts:74-86 | rows in position order give every group its keywords in position order |
| Server.GroupsInFirstRowOrder | google-v2.0-webscraper/src/api/server.ts:74-90 | groups appear in the order of their websites' first rows |
| Server.GroupingRankable | google-v2.0-webscraper/src/api/server.ts:89-97 | the groups of a non-empty fetch can be scored: the query is non-empty; every website has words and a positive rank; every keyword has a positive document count |
| Server.MaxRank | google-v2.0-webscraper/src/api/server.ts:97 | `maxRank` bounds every group's rank and is the rank of some group |
| Server.RankScoreBounds | google-v2.0-webscraper/src/api/server.ts:102 | for a rank between 1 and `maxRank` the rank score lies in `[0, 0.35)` and is 0 at `maxRank` |
| Server.RankScoreOrder | google-v2.0-webscraper/src/api/server.ts:102 | a better (smaller) rank always has a higher rank score |
| Server.BetterRankBreaksTie | google-v2.0-webscraper/src/api/server.ts:98-105 | of two websites equal in TF-IDF and proximity, the better ranked one scores higher |
| Server.ScoreAll | google-v2.0-webscraper/src/api/server.ts:98-105 | one scored entry per TF-IDF pair, at the same index, carrying that pair's website |
| Server.Scores | google-v2.0-webscraper/src/api/server.ts:93-105 | the scored entries carry the grouped websites in group order |
| Server.ScoresFromParts | google-v2.0-webscraper/src/api/server.ts:93-105 | fusing the two scoring passes' per-group results, index by index, gives the scores of the groups |
| Server.ScoreGeTotal | google-v2.0-webscraper/src/api/server.ts:106 | descending score is a total preorder |
| Server.RankingOrderedPermutation | google-v2.0-webscraper/src/api/server.ts:106-109 | the results are ordered by non-increasing score, are a permutation of the scored groups, and give each grouped website once per group |
| Server.HandleQuery | google-v2.0-webscraper/src/api/server.ts:51-116 | a non-string query answers 500 "Internal server error". No match answers no results in 0 seconds. Otherwise the answer is the ranked websites of the groups, with the elapsed seconds |

## Left out

- The browser, DNS and network steps are not modelled: Puppeteer launch, page setup, request interception, `page.goto`, `dns.lookup` and the robots.txt `fetch`. Their results enter `Crawler.Crawl` as the `PageEnv` parameter, because they are foreign, I/O-bound calls.
- The `Crawler` class lifecycle (`init`, `create`, `initializePage`, `closeAll`) is not modelled: it only manages the browser.
- `TaskThrottler`, the `Promise.all` fan-out and the 60 s idle sleep are not modelled, because their effect depends on async interleaving. The tasks of a round are applied one after the other, which gives the same table because every task updates its own row.
- `Date.now()` and `new Date()` are parameters: the round's `now` and each outcome's `finishedAt`.
- `Math.log` and `Math.sqrt` are the parameters `ln` and `sqrt`, because bodiless functions are ruled out. The lemmas that need an exact root assume it through `TfIdf.ExactSqrt`.
- Arithmetic is exact `real`, not IEEE floating point. NaN and Infinity are not modelled.
- Proximity.GetProximities: requires a non-empty query whenever a group has keywords. With an empty query JavaScript divides by zero and yields Infinity or NaN; the handler never reaches that case.
- TfIdf.GetTfIdfScores: requires every keyword's document count and every website's word count to be non-zero. JavaScript would give Infinity or NaN; the stored index always meets this.
- Server.HandleQuery: requires every stored website's rank to be at least 1, so that `maxRank` is not 0. A `maxRank` of 0 gives NaN in JavaScript; seeded ranks start at 1.
- Server.HandleQuery: the 500 answer is modelled only for a query that is not a string. A database failure inside the handler would also answer 500; it is not modelled, because the index is an in-memory value here.
- `lemmatizedMap.ts` is not modelled as code: its lazy JSON load and cache are I/O. The lemma table is a `map`, so the plain-object lookup (`lemmatizedMap["constructor"]` returning an inherited function) is not reproduced. In the model a bare `constructor` token with no entry in the table therefore lemmatises to itself and is counted in `occ`, while in the code its lemma is the inherited `Object` function. The same holds for the query words that `server.ts` lemmatises.
- Scheduler.Frontier.Step: promises the table's validity but not the frontier's `Valid()` ("first pass complete" implies no never-attempted site is left), because the switch as written can break that invariant (see Findings).
- Scheduler.Frontier.StepCorrected: departs from `loadTopSites.ts:47-49` on purpose. It switches to the backlog on `FirstPassDone` of the table instead of on "every site of this batch was attempted before"; `Scheduler.Frontier.Step` is the round as written.
- Sequelize transactions are modelled as all-or-nothing updates of the index. A failed save leaves the index unchanged. The database failures modelled are a duplicate url and values too long for their columns (`Crawler.Storable`).
- A DB `ORDER BY` does not fix the order of ties. The model sorts stably, keeping stored order, for both `fetchKeywords` and the top-sites query.
- Lower-casing and the `\s` / `\w` classes are ASCII plus the common whitespace characters. Unicode case mapping and UTF-16 code units are not modelled.
- Surrogate UUID keys are not modelled; rows are identified by their unique url or word.
- The Express server lifecycle, CORS, the health route, the port, `runScraper`, `starter.ts` and the `google-2.0` user interface are not modelled: they are plumbing, configuration and rendering.

## Findings

| source | as written | input that shows it | evidently intended | confidence | as-written member | corrected member |
|---|---|---|---|---|---|---|
| google-v2.0-webscraper/src/util/loadTopSites.ts:47-49 | switches to backlog mode as soon as every site in one first-pass batch has been attempted before (the round `Scheduler.Frontier.Step`) | two unscraped sites and `CONCURRENCY` 1: `a` (rank 1, one attempt, due now) and `b` (rank 2, never attempted); the batch is `[a]`, the switch fires, and the backlog clause never selects `b` | switch only when no unscraped site is left that was never attempted | not executed | Scheduler.PrematureSwitchStarvesSite | Scheduler.Frontier.StepCorrected |
| google-v2.0-webscraper/src/crawler.ts:226-230 | `occ` is a plain object, so `acc[w]` is already truthy for a key inherited from `Object.prototype` | a page whose text is `constructors`, with the lemma table entry `"constructors": "constructor"`: its one word is `constructor`, the keyword's document count is raised, but `Object.entries(occ)` yields no row for it | one own entry per distinct word | not executed | Crawler.ConstructorWordLosesItsEntry | Crawler.CountOccurrences |
