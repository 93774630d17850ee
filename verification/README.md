# Multi-feed news summarizer: the summarizing pipeline in Dafny

`multi_feed_parser.py` fetches a fixed list of RSS feeds. It summarizes each new
article with the OpenAI service and remembers the summaries in `SmartCache`, a JSON
file keyed by the MD5 content hash of each article. The result is a digest page
grouped by category. This project models the deterministic logic between those
I/O steps as pure Dafny functions and methods, and proves what that logic
promises.

| module | file | what it models |
|---|---|---|
| `Wrappers` | `wrappers.dfy` | `Option` and `Result` |
| `Seqs` | `seqs.dfy` | sequence helpers: order-keeping selection (`Where`), first-occurrence deduplication (`Distinct`), prefixes, flattening |
| `PyStr` | `pystr.dfy` | the Python `str` operations the code relies on: `isspace`, `isdigit`, `strip`, `split` |
| `Articles` | `articles.dfy` | the `Article` record and the entry selection of `fetch_feed_articles` |
| `SmartCache` | `smart_cache.dfy` | the expiry filter of `load_cache`, `get_summary`, `set_summary` |
| `BatchSummaries` | `batch_summaries.dfy` | `parse_batch_summaries`, and the assignment of parsed summaries in `summarize_articles_batch` |
| `Pipeline` | `pipeline.dfy` | the middle of `main`: the cache pass, the batch loop, and the cache write-back after each batch |
| `Digest` | `digest.dfy` | the category grouping at the top of `generate_enhanced_html` |

How the code's collaborators appear in the model:
- The MD5 digest and the page scraping of `extract_article_content` are function
  parameters (`md5`, `extract`).
- The clock is an integer parameter in microseconds: `now` when writing, and
  `cutoff` when loading.
- A fetched feed is a sequence of `FeedEntry` values. It is `None` when fetching
  raised.
- The summary the service returns for the `j`-th queued article is
  `summaryOf(j)`. This covers the batch reply and the one-request-per-article
  fallback.
- What the batch path does with a given reply text is modelled exactly, by
  `BatchSummaries.SummarizeBatch`.

Loading the cache follows the code closely. A single unparsable stored date empties
the whole cache, because the exception leaves the filter loop inside the `try`.

The parser is specified twice. `ReplyItems` is a block reading of the reply: each
numbered line opens an item that takes every following line up to the next
numbered one. `ParseLines` is the line-by-line loop of the source. The loop is
proved to compute the block reading.

## Model

| member | source | states |
|---|---|---|
| PyStr.Strip | multi_feed_parser.py:317 | the result has no whitespace at either end, is no longer than the input, and is the input itself when the input already has none |
| PyStr.StripIsInfix | multi_feed_parser.py:317 | `strip()` returns a contiguous slice of the input; what it removes before and after the slice is all whitespace |
| PyStr.Split | multi_feed_parser.py:313 | `split('\n')` returns at least one piece and no piece contains the separator |
| PyStr.SplitJoin | multi_feed_parser.py:313 | splitting the pieces re-joined with the separator gives the same pieces back, so split and join are inverse |
| BatchSummaries.ItemHead | multi_feed_parser.py:322 | the head of a numbered line is the stripped text after its first `.`, or the whole line when it has no `.`; it is no longer than the line and has no surrounding whitespace when the line has none |
| BatchSummaries.ParseStep | multi_feed_parser.py:317-324 | one line either closes the open item and opens a new one, or extends the open item; either way the items found so far, plus the block reading of the remaining lines, stay the same |
| BatchSummaries.ParseLines | multi_feed_parser.py:315-327 | the line loop with its final flush returns exactly the block reading of the stripped lines |
| BatchSummaries.ParseBatchSummaries | multi_feed_parser.py:310-329 | returns at most `expected_count` items; each is non-empty with no leading or trailing whitespace; the items are the first `expected_count` of the block reading of the reply |
| BatchSummaries.ItemsAfterWellFormed | multi_feed_parser.py:316-327 | every item the block reading produces is non-empty and stripped |
| BatchSummaries.PreambleIsDropped | multi_feed_parser.py:318-324 | lines before the first digit-led line contribute nothing to the items |
| BatchSummaries.NumberedLineOpensItem | multi_feed_parser.py:318-324 | a digit-led line opens an item holding its head plus the following non-numbered lines, each joined with one space; blank lines add nothing; an empty item is not emitted |
| BatchSummaries.AssignSummaries | multi_feed_parser.py:296-300 | length and order are kept; article `i` gets item `i` when there is one, else exactly `[Summary not available]`; nothing but the summary changes |
| BatchSummaries.ApplyReply | multi_feed_parser.py:293-300 | each article of the batch gets the matching item of the parsed reply or the placeholder, and every summary assigned is non-empty |
| BatchSummaries.SummarizeBatch | multi_feed_parser.py:256-308 | an empty batch is returned unchanged; an empty reply is the error path; any other reply assigns summaries as above |
| Articles.SelectedEntries | multi_feed_parser.py:178-189 | at most `max_articles` entries, all with a non-empty title and link, in feed order (a subsequence of the first `max_articles` entries); every entry among the first `max_articles` that has a title and a link is kept, as often as it occurs there |
| Articles.ArticlesOf | multi_feed_parser.py:180-205 | the loop builds one article per kept entry, in order, from exactly the kept entries |
| Articles.FetchFeedArticles | multi_feed_parser.py:167-216 | a failed fetch yields no articles; otherwise one article per selected entry, each carrying the feed name, the feed category, no summary, and the hash of title and content |
| SmartCache.LoadCache | multi_feed_parser.py:120-144 | a missing file gives an empty cache, and so does an unparsable date; otherwise the keys are exactly those whose entry has a fetch date strictly after the cutoff; no entry is added or altered |
| SmartCache.LoadIsIdempotent | multi_feed_parser.py:130-137 | filtering an already filtered cache with the same cutoff changes nothing |
| SmartCache.GetSummary | multi_feed_parser.py:146-149 | `None` exactly for an absent key; otherwise the stored summary |
| SmartCache.SetSummary | multi_feed_parser.py:151-157 | afterwards `get_summary` returns the new summary; the entry is stamped `now`; the stored title is a prefix of the title, at most 100 characters long, and the whole title when that fits; every other key is unchanged |
| SmartCache.WrittenEntrySurvivesReload | multi_feed_parser.py:130-157 | a summary just written is served after a reload exactly when its stamp is after the reload's cutoff |
| SmartCache.KeptForAWeek | multi_feed_parser.py:88-157 | with the seven-day expiry, a summary written at one time is served after a reload at a later time exactly while it is less than seven days (in microseconds) old |
| Pipeline.Resolve | multi_feed_parser.py:494-497 | only the summary can change; a hit takes the cached, non-empty summary; a miss is untouched |
| Pipeline.Misses | multi_feed_parser.py:492-502 | the queue holds positions in strictly increasing order, so input order is kept and no article is queued twice |
| Pipeline.MissesAreTheMisses | multi_feed_parser.py:493-502 | an article is queued exactly when it is not a hit: caching is off, or its hash is empty, or the cached summary is absent or empty |
| Pipeline.LookUp | multi_feed_parser.py:494-502 | one turn of the cache pass queues the article exactly when it is not a hit, and otherwise gives it the cached summary |
| Pipeline.PartitionByCache | multi_feed_parser.py:492-502 | the loop resolves every article against the cache and queues exactly the misses, in order |
| Pipeline.Chunks | multi_feed_parser.py:510-511 | the batches are non-empty, each has at most `batch_size` elements, all but the last have exactly `batch_size`, and their concatenation is the queue |
| Pipeline.SliceBatches | multi_feed_parser.py:510-511 | slicing `queue[i:i + batch_size]` for each `i` in `range(0, len(queue), batch_size)` produces exactly those batches; the batch loop of `SummarizeQueue` takes the same `BatchEnd` steps |
| Pipeline.RecordAll | multi_feed_parser.py:516-518 | the cache gains exactly the hashes of the summarized articles that have a non-empty hash and summary; those entries hold a non-empty summary stamped `now`; all other entries are kept |
| Pipeline.WrittenKeysContains | multi_feed_parser.py:516-518 | every article with a non-empty hash and summary has its hash written |
| Pipeline.WrittenKeysAreWritable | multi_feed_parser.py:516-518 | every written hash belongs to an article with a non-empty hash and summary |
| Pipeline.LastWriterWins | multi_feed_parser.py:516-518 | an article's summary is what the cache serves for its hash, unless a later article of the batch writes the same hash |
| Pipeline.WriteBatch | multi_feed_parser.py:515-518 | the write-back loop computes the cache described above |
| Pipeline.RecordAllConcat | multi_feed_parser.py:510-518 | writing two runs of articles one after the other equals writing their concatenation |
| Pipeline.BatchesWriteLikeOneRun | multi_feed_parser.py:510-518 | writing batch after batch equals writing all the batches' articles at once, however the queue is cut |
| Pipeline.SummarizeOneBatch | multi_feed_parser.py:512 | a batch call sets the summaries of exactly the batch's articles and leaves the earlier batches' results in place |
| Pipeline.SummarizeQueue | multi_feed_parser.py:509-520 | every queued article gets its summary and nothing else changes; with caching on, the cache equals writing the whole summarized queue once |
| Pipeline.SummarizeMisses | multi_feed_parser.py:505-520 | for a positive batch size, hits keep their cached summary, each queued article gets its summary, only summaries change, and the cache is written as above |
| Pipeline.Run | multi_feed_parser.py:492-520 | the run fails exactly when the batch size is zero and something is queued; otherwise only summaries change and hits keep the cached summary; for a positive batch size, queued articles get theirs and the cache gains the write-back; for a negative one, nothing is summarized or written |
| Pipeline.NextRunHitsEverything | multi_feed_parser.py:494-518 | if every queued article has a hash and receives a non-empty summary, the cache the run leaves behind, before any reload, serves every article of the run |
| Digest.AddArticle | multi_feed_parser.py:367-369 | one turn of the grouping loop keeps the grouping invariant: first-appearance key order, buckets in input order, total count equal to articles seen |
| Digest.GroupedAfterNew | multi_feed_parser.py:367-369 | an article of a new category opens a one-article bucket at the end of the key order |
| Digest.GroupedAfterGrow | multi_feed_parser.py:369 | an article of a known category is appended to its bucket and the key order stays the same |
| Digest.GroupByCategory | multi_feed_parser.py:365-369 | the keys are the categories without repeats, in order of first appearance; each bucket is exactly that category's articles in input order and is non-empty; the bucket sizes add up to the number of articles |
| Seqs.DistinctKeepsFirstOccurrenceOrder | multi_feed_parser.py:365-368 | the category keys come in the order their first article appears |
| Seqs.WhereCounts | multi_feed_parser.py:366-369 | a bucket holds every article of its category as often as it occurs in the input, and no other article |
| Seqs.WhereIsSubsequence | multi_feed_parser.py:180-189 | filtering keeps input order |

## Left out

- Network and scraping: `feedparser.parse`, `requests`, BeautifulSoup and `extract_article_content` are not modelled. A feed is an entry list; scraping is the `extract` parameter. An exception while handling one entry (lines 207-209) is not modelled.
- OpenAI: the chat calls, their prompts and token limits, and `summarize_articles_individually` are not modelled. Their output, including the `[Summary failed]` text, is the `summaryOf` parameter. The fallback after an empty reply is the `None` result of `SummarizeBatch`.
- Concurrency: the `ThreadPoolExecutor` fetch loop is not modelled. The order of the fetched articles is an input.
- `time.sleep`, logging, argparse, the `--feeds` filter and the HTML assembly and file write are not modelled.
- JSON load and save are not modelled. A stored file is a map of typed entries, or `None` when it is missing or unreadable. `save_cache` is not modelled; `Run` returns the cache it would save.
- The early return of `main` when no feed yields an article (lines 485-487) is not modelled. On an empty input, `Run` returns the empty list and the unchanged cache.
- A stored entry without a `summary` field makes `get_summary` raise `KeyError`. That case is not modelled, because `CacheEntry` always holds a summary.
- A stored date with a time zone makes the comparison at line 136 raise `TypeError`, and the load then returns an empty cache. That case is not modelled; dates are integers.
- `PyStr.IsSpace` follows Python's `isspace` on all of Unicode. `IsDigit` accepts only the ASCII digits, whereas Python's `isdigit` also accepts other Unicode digits such as `²`.
- `expected_count` and `max_articles` are natural numbers, because every caller passes a length or a positive configured value. Negative slice bounds are not modelled.
- `Pipeline.Run`: all cache writes of a run share one timestamp `now`. The code reads the clock at each `set_summary` call.
- `Pipeline.SummarizeQueue`: its loop cuts the queue with the same `BatchEnd` step as `SliceBatches`, but it does not itself state that the batches it summarizes are the `Chunks`; its cache result is stated for the whole summarized queue, which `BatchesWriteLikeOneRun` shows does not depend on the cut.
- `Articles.ToArticle`: every article of a feed is stamped with one clock reading `now`, whereas the code reads the clock once per article (line 203). Nothing in the modelled core reads an article's fetch date.
- `Pipeline.Run`: the summary of a queued article depends only on its position in the queue. The model does not relate it to the article's contents or to the batch it lands in.
- Not in the code, so not in the model:
  - deduplication by a URL fingerprint;
  - a staleness check against a stored content hash;
  - a fixed category priority and date order in the digest;
  - an atomic write-then-rename of the cache;
  - keeping fallback summaries out of the cache. The code caches `[Summary not available]` and `[Summary failed]` like any other non-empty summary.
