# CryptoCrawler listing extraction, modelled in Dafny

CryptoCrawler collects the top cryptocurrency listings (rank, name, symbol,
price, 24h change, market cap) in two independent ways and writes each result
to its own CSV file:

- the **browser pipeline** loads pages 1 to 5 of the ranking site, extracts one
  record per table row (`scrape_page`) and numbers the records with a running
  `global_rank` counter carried from page to page;
- the **API pipeline** requests five batches of twenty listings at the offsets
  1, 21, 41, 61 and 81 and maps every coin entry of the JSON answer to a record,
  taking the rank from the entry itself.

This project models the deterministic logic of both pipelines and proves its
properties. HTML, the browser, HTTP and the CSV file are replaced by abstract
inputs and outputs:

- a table row is a sequence of `Cell`s. Each cell holds its stripped text and
  the stripped text of its first `a.cmc-link`, `p.coin-item-symbol` and `span`
  descendants, each of them optional;
- the browser is a parameter `load: string -> seq<Row>`. It gives the rows that
  the page at an address shows. `PageUrl` builds the address of page n: the
  base URL, followed by `?page=n` from page 2 on;
- the HTTP request is a parameter `fetch: int -> Result<seq<Coin>, ApiError>`.
  It gives the coin list for an offset, or the failure of the request.
  `QuoteOf` takes an entry's first quote, or an empty one when `quotes` is
  absent;
- number formatting (`:.2f` and `:,.2f`) is a pair of parameters in `Formats`;
- the output file is the sequence of records written so far, in order.

Modules (one file each):

- `Wrappers` (`wrappers.dfy`): `Option` and `Result`.
- `Decimal` (`decimal.dfy`): `Str`, which is Python's `str` on integers, and
  the proof that it is injective.
- `Listing` (`listing.dfy`): the six-field `Record` and the `"N/A"`
  placeholder.
- `RowExtractor` (`row_extractor.dfy`): `scrape_page`.
- `BrowserPipeline` (`browser_pipeline.dfy`): the page loop of `main`.
- `ApiPipeline` (`api_pipeline.dfy`): the batch loop and the per-coin mapping
  in `main`.

Notable facts the proofs establish:

- A record's rank is the page's starting rank plus the position of its row among
  *all* matched rows. A malformed row (fewer than seven cells) therefore leaves
  a gap in the ranks.
- The counter then grows only by the number of records. So when a malformed
  row comes before a good one, the page's last rank is at least the starting
  rank it hands to the next page: that start rank falls within this page's
  span of ranks.
  When the page's only malformed row is its first, its last rank is exactly
  that starting rank. If the next page starts with a good row, two adjacent
  output rows then carry the same rank, and `CollisionExample` shows two
  output rows that both carry rank "2".
- With no malformed row anywhere, the written ranks are exactly 1, 2, …, total.

## Model

| member | source | states |
|---|---|---|
| `Decimal.Str` | webscraping.py:36 | The decimal text of an integer is non-empty and starts with '-' exactly when the integer is negative |
| `Decimal.StrInjective` | webscraping.py:36 | Two integers have the same decimal text exactly when they are equal, so rank strings compare like the rank numbers |
| `RowExtractor.ExtractRow` | webscraping.py:30-61 | One loop iteration gives a record exactly when the row has at least seven cells; a shorter row gives nothing and raises nothing |
| `RowExtractor.RecordOf` | webscraping.py:35-58 | Rank is the text of the given rank. Name and Symbol are the column-3 anchor and paragraph texts, or "N/A" when absent. Price and 24h change are columns 4 and 5 verbatim. Market Cap is "N/A" for a 7-cell row or when column 8 has no span, and otherwise that span's text |
| `RowExtractor.ScrapePage` | webscraping.py:21-63 | The loop returns exactly `PageRecords` of the rows and the starting rank, and never more records than rows |
| `RowExtractor.KeptIndicesExact` | webscraping.py:30-33 | The positions that yield records are in range, all of rows with at least seven cells, and include every such row |
| `RowExtractor.KeptIndicesLength` | webscraping.py:30-33 | At most as many rows yield records as there are rows |
| `RowExtractor.PageRecordsLength` | webscraping.py:30-63 | There is one record per kept row, and at most as many records as rows |
| `RowExtractor.PageRecordAt` | webscraping.py:30-58 | Record k is the record of the k-th kept row, built with the starting rank plus that row's position, so records keep row order |
| `RowExtractor.KeptIndicesIncrease` | webscraping.py:30-33 | Later records come from later rows: the kept positions are strictly increasing |
| `RowExtractor.PageRanks` | webscraping.py:30-36 | Every record's rank is `str(start + idx)`, where idx is the position of its row among all matched rows, and that row had at least seven cells |
| `RowExtractor.SkippedRowShortens` | webscraping.py:31-33 | A page with a malformed row yields fewer records than rows |
| `RowExtractor.AllKeptIndices` | webscraping.py:30-33 | With no malformed row, record k comes from row k and there are as many records as rows |
| `RowExtractor.CountMatchesRowsIff` | webscraping.py:30-61 | The record count equals the row count if and only if no row has fewer than seven cells |
| `RowExtractor.SkippedRankUnused` | webscraping.py:30-36 | No record carries the rank that belongs to the position of a skipped row (the gap) |
| `RowExtractor.PageRanksDistinct` | webscraping.py:30-36 | Within one page no two records share a rank |
| `RowExtractor.NoSkipConsecutiveRanks` | webscraping.py:30-36 | With no malformed row, record k has rank `str(start + k)` |
| `RowExtractor.SkipBeforeKeptOverlaps` | webscraping.py:30-36 | A malformed row before a good one makes the page's last rank reach at least start + record count, the start rank the caller passes to the next page |
| `RowExtractor.FirstRowKeepsStartRank` | webscraping.py:30-36 | When the first row is kept, the first record carries the starting rank |
| `RowExtractor.OnlyFirstSkipped` | webscraping.py:30-33 | When only the first row is malformed, record k comes from row k + 1 |
| `RowExtractor.OnlyFirstSkippedLastRank` | webscraping.py:30-36 | When only the first of n rows is malformed, the page yields n - 1 records and the last is ranked start + n - 1 |
| `BrowserPipeline.PageUrlShape` | webscraping.py:127 | `PageUrl`, the address loaded for a page number: it starts with the base URL, and equals it exactly for page 1 (and below) |
| `BrowserPipeline.PageUrlsDistinct` | webscraping.py:126-127 | Different page numbers from 1 up load different addresses |
| `BrowserPipeline.ScrapeBrowser` | webscraping.py:125-131 | The page loop writes exactly `Crawl` of the five pages, and the final `global_rank` is 1 plus the number of rows written |
| `BrowserPipeline.CrawlStep` | webscraping.py:126-130 | Page n appends the records of its rows, numbered from the counter left by page n - 1, and advances the counter by their number |
| `BrowserPipeline.CrawlRank` | webscraping.py:125-130 | After any number of pages, `global_rank` is 1 plus the number of rows written |
| `BrowserPipeline.CrawlGrows` | webscraping.py:126-130 | One more page keeps everything the earlier pages wrote as a prefix of the output |
| `BrowserPipeline.CrawlAppendOnly` | webscraping.py:126-130 | The output only grows: the rows written after page m are a prefix of those written after a later page n |
| `BrowserPipeline.NoSkipRankAt` | webscraping.py:125-130 | When no page has a malformed row, written row k has rank `str(k + 1)`, for one given k |
| `BrowserPipeline.NoSkipRanksAreOneToTotal` | webscraping.py:125-130 | When no page has a malformed row, written row k has rank `str(k + 1)`: ranks 1..total, no gap, no repetition |
| `BrowserPipeline.LastRankIsNextStart` | webscraping.py:125-130 | When a page's only malformed row is its first, the last row written so far carries the rank that the counter holds after that page |
| `BrowserPipeline.FirstRankIsCounter` | webscraping.py:125-130 | When a page's first row is good, that page's first written row carries the counter left by the earlier pages |
| `BrowserPipeline.CrossPageRankCollision` | webscraping.py:125-130 | Suppose a page before the last skips only its first row and the next page starts with a good row. Then the last row of the one and the first row of the other carry the same rank in the output |
| `BrowserPipeline.CollisionExample` | webscraping.py:125-130 | On a concrete site the first two output rows both carry rank "2" |
| `ApiPipeline.Range` | webscraping.py:147 | Python's `range(start, stop, step)`: element i is start + i·step, every element is below stop, and the next one would not be |
| `ApiPipeline.BatchOffsets` | webscraping.py:147 | The batch offsets are exactly 1, 21, 41, 61, 81 |
| `ApiPipeline.QuoteOf` | webscraping.py:151 | `coin.get('quotes', [{}])[0]` fails, with IndexError, exactly when `quotes` is an empty list; an absent `quotes` gives a quote whose price, change and market cap are all absent |
| `ApiPipeline.MapCoin` | webscraping.py:150-159 | Mapping succeeds if and only if the entry has a non-empty or absent `quotes` and all of `cmcRank`, `name`, `symbol` |
| `ApiPipeline.MapCoinContract` | webscraping.py:150-159 | The error is IndexError for an empty `quotes`, otherwise KeyError for the first missing key of cmcRank, name, symbol. On success rank, name and symbol are copied; price and change come from `:.2f` and market cap from "$" plus `:,.2f`, each of the first quote's value or 0 when the key is absent |
| `ApiPipeline.MissingQuotesDefaultToZero` | webscraping.py:151-158 | An entry without a `quotes` key is written with price, change and market cap formatted from 0 |
| `ApiPipeline.MapBatchStep` | webscraping.py:150-159 | A failing entry ends the batch with its error and nothing more; a good entry is written before the rest of the batch |
| `ApiPipeline.WriteBatch` | webscraping.py:150-159 | The inner loop writes exactly `MapBatch` of the batch and reports its error |
| `ApiPipeline.MapBatchAllWellFormed` | webscraping.py:150-159 | A batch ends without error if and only if every entry is well formed, and it then writes one record per entry in order |
| `ApiPipeline.MapBatchStopsAtFirstError` | webscraping.py:150-159 | The first malformed entry aborts with its own error. The j entries before it are written, in order, and nothing after it |
| `ApiPipeline.ApiRunAllSucceed` | webscraping.py:147-159 | When every request returns twenty well-formed entries, the run has no error and writes 20 records per offset |
| `ApiPipeline.HundredRecords` | webscraping.py:147-159 | With five full, well-formed batches the run writes exactly 100 records |
| `ApiPipeline.ApiRunStopsAtFailedFetch` | webscraping.py:147-148 | A failed request aborts the run with its error. The output holds only the rows of the earlier batches |
| `ApiPipeline.ApiRunStopsAtBadEntry` | webscraping.py:147-159 | A malformed entry in batch b aborts the run with its error. The output holds the rows of the earlier batches and the entries of batch b before it, and nothing afterwards |
| `ApiPipeline.ApiRunStep` | webscraping.py:147-159 | A failed request or a failed entry ends the run with that batch's rows and error; a complete batch is followed by the rest of the run |
| `ApiPipeline.WriteBatches` | webscraping.py:147-159 | The outer loop, over any offsets, writes exactly `ApiRun` of them and ends with its error, if any |
| `ApiPipeline.ScrapeApi` | webscraping.py:142-161 | The API half of `main` writes exactly `ApiRun` over the offsets 1, 21, 41, 61, 81 and ends with its error, if any |

A missing `cmcRank`, `name` or `symbol` key is not caught
(webscraping.py:147-159), so it aborts the whole run, not only its batch; rows
written before the failing entry stay written (`ApiRunStopsAtBadEntry`).

## Left out

- Chrome driver setup and its options (webscraping.py:11-19): they only configure a foreign library.
- `WebDriverWait` polling and its 15-second timeout (webscraping.py:22-24): this is browser synchronisation and time. The model assumes every page loads. In the source a page showing no matching row never satisfies `presence_of_all_elements_located`, so the wait raises `TimeoutException` and aborts the run; in the model `load(url) == []` is an ordinary page with no records, and the loop goes on.
- BeautifulSoup parsing and CSS selector matching (webscraping.py:26-27,31,39-40,48): rows and cells are given as abstract data.
- The HTTP request, `raise_for_status` and JSON decoding (webscraping.py:65-81): `fetch` either gives a coin list or fails with any `ApiError`: `FetchFailed` for the request and `raise_for_status`, `KeyError` for a missing `data` or `cryptoCurrencyList` key.
- CSV `DictWriter` quoting, the header row and file handling (webscraping.py:87-90,120-123,129,142-145): the output is the sequence of records written.
- `:.2f` and `:,.2f` float formatting (webscraping.py:156-158): this is floating-point numerics. It is the abstract `Formats` parameter, so the formatting examples ("1234.50", "-2.57", "$987,654,321.00") are not modelled.
- Console progress lines and the elapsed-time and throughput prints (webscraping.py:60,106-109,131,134-135,161-164): these are output and clock reads.
- `scrape_json` (webscraping.py:83-109): `main` never calls it, and it is identical to the JSON section of `main`, which is modelled.
- `ApiPipeline.MapCoin`: a key that is present with a JSON `null` value, or values of unexpected JSON types, are not modelled. Each key is either absent or holds a value of the expected type.
- `ApiPipeline.Range`: only positive steps are modelled, the only kind the source uses.
- `main` runs the browser pipeline and then the API pipeline. They share no data, so they are modelled as two separate methods. They do share control flow: an exception in the browser half, such as a failed driver launch (webscraping.py:115) or a `TimeoutException` from the page wait (webscraping.py:22-24), ends `main` before the API half starts, and the model does not capture that.
