# Polymarket scraper — a Dafny model of its core

The scraper polls Polymarket's Next.js data endpoint on a fixed interval. It stores every
market it sees in a SQLite table and tells first sightings apart from updates. It also
counts its scrape cycles for a metrics endpoint. This project models that core in Dafny:

- **Parsing** (`parser.dfy`). `parse_single_market` turns a JSON entry into a `Market`. It
  reads the id from `id`, `slug`, `marketId` or `market_slug`. The title, description,
  price, volume and end date each come from an ordered list of alternative keys.
  `parse_markets_from_json` accepts three envelope shapes and keeps the entries that parse.
- **Build-id discovery** (`build_id.dfy`). `extract_build_id_from_html` looks first in the
  `__NEXT_DATA__` script and then scans `/_next/static/<id>/` paths. `discover_build_id`
  and the start of `run_scraper` fall back to a built-in id.
- **The fetch pipeline** (`scraper.dfy`):
  - `try_fetch_with_build_id` accepts a 2xx JSON response and nothing else;
  - `fetch_and_store_markets` upserts each parsed market and counts the new ones;
  - the retry wrapper makes three attempts with 1 s and 2 s backoff;
  - one loop cycle applies the one-second rate limit and records the outcome in the metrics.
- **The store** (`store.dfy`). The `markets` table is a map from id to row, held by a
  `MarketStore` object whose `Upsert` inserts or updates a row and keeps `discovered_at`.
  `get_markets` (newest first, paged), `get_markets_since` and `get_market_by_id` are
  modelled, and so is the database path that `init_db` takes from the connection URL.
- **Metrics** (`metrics.dfy`). The `Metrics` object holds three counters and the time of
  the last scrape. A ghost history of cycle outcomes ties the counters together.
- **Options** (`config.dfy`). `main.rs` reads `--database-url`, `--port` and
  `--scrape-interval` by position and falls back to the defaults.
- **Support** (`wrappers.dfy`, `decimal.dfy`, `json.dfy`, `text.dfy`, `models.dfy`):
  - `Option`/`Result`;
  - Rust's decimal printing of integers and unsigned `parse`;
  - a `serde_json::Value` with the accessors the parser uses;
  - `find`/`starts_with`/`contains` on strings;
  - the `Market` record and the `From<PolymarketMarket>` conversion.

The outside world enters as parameters:
- every HTTP response, as a `Response` value for each attempt;
- the clock, as one `now` reading per cycle and the elapsed nanoseconds since the last
  request;
- `serde_json::from_str` and `str::parse::<f64>`, as function parameters;
- storage-engine failures, as the set of batch positions whose upsert failed.

The code accepts any string id, including `""` (`{"id": ""}` parses to a market with id
`""`), and the model keeps that.

## Model

| member | source | states |
|---|---|---|
| Decimal.NatToDecimalValue | src/scraper.rs:330-331 | `n.to_string()` of a u64 id is digits only, and reading those digits back gives `n` |
| Decimal.IntToDecimal | src/scraper.rs:332 | `n.to_string()` of an i64 id: the magnitude's digits, with a leading `-` exactly for negatives, and no leading zero except for `0` itself |
| Decimal.IntToDecimalInjective | src/scraper.rs:326-332 | distinct integer ids print as distinct strings |
| Decimal.ParseUnsigned | src/main.rs:43 | `parse::<uN>()` accepts only an optional `+` followed by digits, and only values up to the type's maximum |
| Decimal.ParseUnsignedRoundTrip | src/main.rs:43 | parsing the decimal text of any in-range value gives that value back, with or without `+` |
| Decimal.ParseUnsignedAccepts | src/main.rs:43 | every string of digits, leading zeros included and with or without `+`, whose value is at most the maximum parses to that value |
| Decimal.LeadingZeroPortExample | src/main.rs:43 | `"080"` and `"+080"` parse as the u16 80, and `"00"` as 0 |
| Decimal.ParseUnsignedOverflow | src/main.rs:43 | the decimal text of a value above the maximum does not parse |
| Decimal.ParseUnsignedRejectsSign | src/main.rs:43 | a leading `-` never parses as an unsigned type |
| Json.Get | src/scraper.rs:325 | `get(key)` is Some exactly for a key that an object has, and yields that member |
| Json.AsU64 | src/scraper.rs:330-331 | `as_u64` is Some exactly for an integer in 0 .. 2^64 - 1, and yields that integer |
| Json.AsI64 | src/scraper.rs:332 | `as_i64` is Some exactly for an integer in the i64 range, and yields that integer |
| Json.StrAt | src/scraper.rs:334-336 | `get(key).and_then(as_str)` is Some exactly when the member is a string, and yields it |
| Json.NumAt | src/scraper.rs:359 | `get(key).and_then(as_f64)` is Some exactly when the member is a number, and yields it |
| Json.FirstPresent | src/scraper.rs:339-341 | an `or_else` chain of `get`s yields the first key the object has, whatever its value, and None exactly when it has none |
| Text.FindFrom | src/scraper.rs:159 | `s[from..].find(p)` is the first occurrence at or after `from`, and None exactly when there is none |
| Text.StartsWithSlice | src/scraper.rs:164-166 | `starts_with(p)` holds exactly when the string is at least as long as `p` and begins with the characters of `p` |
| Models.FromPolymarket | src/models.rs:73-86 | an absent id or title becomes `""`, the other fields are copied, and no timestamps are set |
| Models.FromPolymarketLosesOnlyDefaults | src/models.rs:73-86 | two upstream records convert to the same market exactly when they agree up to an absent id or title reading as `""` |
| Models.FromPolymarketOnto | src/models.rs:73-86 | every market without timestamps is the conversion of some upstream record |
| Parser.ParseSingleMarket | src/scraper.rs:323-398 | parsing fails exactly when the entry has no usable identity, and a parsed market has no timestamps |
| Parser.IdRule | src/scraper.rs:324-337 | the id comes from a string or integer `id`, else `slug`, else `marketId`, else `market_slug`, in that order |
| Parser.TitleRule | src/scraper.rs:339-345 | the title comes from the first present key among question, title and name; if that value is not a string, the title is "Untitled Market" |
| Parser.PriceRule | src/scraper.rs:353-362 | the price is the first token's price, else `currentPrice`, else `price`, else `probability`; each candidate that is not a number hands over to the next |
| Parser.VolumeRule | src/scraper.rs:364-377 | the volume comes from the first present volume key: a number as is, a string through the f64 parser, anything else nothing |
| Parser.TextFieldRule | src/scraper.rs:347-386 | description and end date are the string of the first present candidate key, and nothing when that value is not a string |
| Parser.Entries | src/scraper.rs:292-316 | a bare array wins over a `markets` array, which wins over `pageProps.markets`; any other document has no entries |
| Parser.ParsedEntriesAppend | src/scraper.rs:295-299 | parsing a concatenation of entry lists concatenates the results |
| Parser.ParsedEntriesCount | src/scraper.rs:295-299 | one market per entry that parses, so never more markets than entries |
| Parser.ParsedEntriesMembers | src/scraper.rs:295-299 | a market is in the output exactly when some entry parses to it |
| Parser.ParsedEntriesUnstamped | src/scraper.rs:388-397 | no market leaves the parser with a timestamp |
| Parser.ParseEntries | src/scraper.rs:295-299 | the loop keeps exactly the successful parses, in entry order |
| Parser.ParseMarketsFromJson | src/scraper.rs:289-319 | the result is the parsed entries of the first matching envelope, and no longer than that entry list |
| Parser.IntegerIdExample | src/scraper.rs:330-331 | any entry whose `id` is the integer 1 parses, with id "1" |
| Parser.NullQuestionExample | src/scraper.rs:339-345 | a null `question` hides a string `title`: the title is "Untitled Market" |
| Parser.PrimaryKeysExample | src/scraper.rs:404-422 | an entry with the first test's members (`id`, `title`, `description`, `currentPrice`, `volume`, `endDate`) parses to exactly those values |
| Parser.AlternativeKeysExample | src/scraper.rs:424-438 | `slug`, `question`, `price` and `volumeNum` supply id, title, price and volume |
| Parser.MissingIdExample | src/scraper.rs:440-447 | an entry with only a title is refused |
| Parser.QuestionEntry | src/scraper.rs:449-471 | an entry with an integer id and a question parses, with the id's decimal text and that question as title |
| Parser.ArrayEnvelopeExample | src/scraper.rs:449-471 | the test's two-entry array gives markets "1"/"Market 1" and "2"/"Market 2", in order |
| BuildId.SegmentAfter | src/scraper.rs:160-162 | the segment after a static prefix runs up to the next '/' and holds no '/' |
| BuildId.ScanRound | src/scraper.rs:159-173 | one round of the loop accepts only an acceptable segment (not chunks/css/media, more than ten characters), and otherwise resumes strictly later |
| BuildId.ScanFrom | src/scraper.rs:155-176 | whatever the scan returns is an acceptable segment |
| BuildId.ScanFromSound | src/scraper.rs:155-176 | a scan result is the whole segment after some `/_next/static/` at or after the start, so it holds no '/' |
| Text.FindFromFirst | src/scraper.rs:141-144 | `find` reports an occurrence exactly when none comes before it |
| BuildId.NextDataRule | src/scraper.rs:141-153 | with the first `__NEXT_DATA__`, the first '{' after it and the first `</script>` after that, a string `buildId` in the text between is the answer; if that text does not parse or holds no string `buildId`, the answer is the scan's |
| BuildId.NoNextDataMarker | src/scraper.rs:141 | a page without `__NEXT_DATA__` gets the scan's answer |
| BuildId.UnterminatedNextData | src/scraper.rs:142-144 | a `__NEXT_DATA__` with no '{' after it, or a '{' with no `</script>` after it, gives the scan's answer |
| BuildId.ExtractBuildIdFromHtml | src/scraper.rs:139-177 | the method, with its scan loop, returns the `__NEXT_DATA__` id, else the scan's answer |
| BuildId.PrefixOverlap | src/scraper.rs:157-159 | two `/_next/static/` occurrences closer than the prefix length are exactly 13 characters apart |
| BuildId.ScanFindsCandidate | src/scraper.rs:155-174 | the scan finds an id whenever some prefix is followed by an acceptable segment and does not start 13 characters after another prefix; and what it finds is the segment after a prefix at or before that one, so the first acceptable segment in scan order |
| BuildId.OverlappedPrefixIsSkipped | src/scraper.rs:159-170 | on `/_next/static/_next/static/abcdefghijk/` the scan finds nothing, although the inner prefix is followed by an acceptable segment |
| BuildId.DiscoverBuildId | src/scraper.rs:116-136 | discovery fails only when the homepage cannot be fetched; otherwise it gives the extracted id or the default |
| BuildId.StartupBuildId | src/scraper.rs:34-43 | the scraper runs with the id extracted from the homepage when there is one, and with the default when the homepage cannot be fetched or holds no id |
| BuildId.StaticIdShape | src/scraper.rs:155-176 | without a `__NEXT_DATA__` id, the id used is the default or an acceptable segment without '/' |
| Store.UpsertRow | src/db.rs:49-103 | a new id is inserted with both stamps `now`; an existing row gets the new fields and `updated_at`, keeps `discovered_at`, and no other row changes |
| Store.UpsertRowKeys | src/db.rs:59-100 | an upsert adds exactly the market's id to the stored ids |
| Store.MarketStore.Upsert | src/db.rs:49-103 | returns true exactly when the id was absent before, and applies the upsert to the table |
| Store.MarketStore.constructor | src/db.rs:13-45 | a fresh store is empty and well formed |
| Store.UpsertTwice | src/db.rs:77-100 | a second upsert of an id keeps the first `discovered_at`, takes everything else from the second, and leaves one row |
| Store.UpsertKeepsStampsOrdered | src/db.rs:57-99 | with a clock that does not run backwards, `discovered_at <= updated_at` holds in every row |
| Store.NoLaterThanTotalOrder | src/db.rs:114 | `ORDER BY discovered_at DESC`, with NULLs last, is a total preorder |
| Store.LatestExists | src/db.rs:114 | a non-empty table has a row that sorts first |
| Store.NewestFirst | src/db.rs:111-115 | every table has a newest-first listing of all its ids, each once: a latest row, then a listing of the rest |
| Store.Page | src/db.rs:111-115 | `LIMIT limit OFFSET offset` keeps `min(limit, n - offset)` items, those from position `offset` on, in order |
| Store.GetMarkets | src/db.rs:106-127 | the page holds `min(limit, rows - offset)` rows, taken in listing order from position `offset`, and the total is the row count |
| Store.KeysSince | src/db.rs:137 | the filter keeps exactly the listed keys discovered at or after `since` |
| Store.KeysSinceKeepsOrder | src/db.rs:137-138 | the filter keeps the newest-first order and lists no key twice |
| Store.GetMarketsSince | src/db.rs:130-145 | the rows returned are exactly those discovered at or after `since`, each once, newest first |
| Store.GetMarketById | src/db.rs:148-159 | the row with that id, present exactly when the table has it |
| Store.DbPath | src/db.rs:18-21 | `sqlite://` is stripped if present, else `sqlite:`, else the URL is the path |
| Store.DbPathStripsScheme | src/db.rs:18-21 | a path behind `sqlite://` comes back unchanged, and so does one behind `sqlite:` unless it starts with `//` |
| Store.DefaultDbPath | src/main.rs:13 | the default URL names the file `markets.db` |
| ScrapeMetrics.SuccessesBounded | src/metrics.rs:24-30 | a history never has more successes than cycles; all or none succeeded exactly at the extremes |
| ScrapeMetrics.SuccessesAppend | src/metrics.rs:24-30 | successes of a concatenated history add up |
| ScrapeMetrics.Metrics.constructor | src/metrics.rs:15-22 | all counters start at zero, with no last scrape time |
| ScrapeMetrics.Metrics.RecordScrape | src/metrics.rs:24-36 | the total and exactly one of successes or failures go up by one, and the last scrape time becomes `now` |
| ScrapeMetrics.Metrics.TotalScrapes | src/metrics.rs:38-40 | the total is the number of recorded cycles and equals successes plus failures |
| ScrapeMetrics.Metrics.SuccessfulScrapes | src/metrics.rs:42-44 | the number of successful cycles, never above the total |
| ScrapeMetrics.Metrics.FailedScrapes | src/metrics.rs:46-48 | failures are the cycles that did not succeed |
| ScrapeMetrics.Metrics.LastScrapeTime | src/metrics.rs:50-55 | present exactly once some cycle has been recorded |
| ScrapeMetrics.RecordingExample | src/metrics.rs:68-88 | after a success and a failure, the counters read 2, 1, 1 and a last time is set |
| Scraper.NextDataUrlInjective | src/scraper.rs:184 | distinct build ids give distinct data URLs, and the id can be read back from its URL |
| Scraper.TryFetch | src/scraper.rs:193-240 | a body comes back exactly for a 2xx response whose content type (default "unknown") contains `application/json` and whose body parses |
| Scraper.MissingContentTypeRefused | src/scraper.rs:196-207 | a response without a content type is refused |
| Scraper.CharsetContentTypeAccepted | src/scraper.rs:201 | `application/json; charset=utf-8` is accepted |
| Scraper.AcceptedIdsMembers | src/scraper.rs:266-282 | an id counts as accepted exactly when some batch position outside the failed ones carries it |
| Scraper.ApplyBatchKeys | src/scraper.rs:266-282 | after a batch, the stored ids are the old ones plus those of the accepted upserts |
| Scraper.ApplyBatchKeepsDiscovery | src/scraper.rs:266-282 | a batch never removes a market or moves its `discovered_at` |
| Scraper.NewCountIsGrowth | src/scraper.rs:265-284 | the reported count of new markets is exactly the growth of the table, and at most the batch size |
| Scraper.SecondStoreFindsNothingNew | src/scraper.rs:265-284 | storing the same batch again, with no upsert failures, reports no new markets |
| Scraper.FetchAndStore | src/scraper.rs:245-285 | an unusable response fails with the build id and changes nothing; otherwise the parsed batch is upserted and the count of new ids returned |
| Scraper.Backoff | src/scraper.rs:96-97 | the delay after failed attempt k is 1 × 2^k seconds |
| Scraper.BackoffTotal | src/scraper.rs:91-107 | the delays of n retries add up to 2^n − 1 seconds |
| Scraper.FirstAccepted | src/scraper.rs:91-93 | the first attempt among the first n that gets a usable response, and None exactly when none does |
| Scraper.FetchAndStoreWithRetry | src/scraper.rs:83-113 | stores the first usable of at most three responses after sleeping 1 s, 2 s, …; if none is usable, fails with the last error after three attempts and two sleeps, storing nothing |
| Scraper.RateLimitWait | src/scraper.rs:56-62 | less than a second after the previous request, the wait tops the gap up to exactly one second; otherwise there is no wait |
| Scraper.ScrapeCycle | src/scraper.rs:53-79 | one cycle waits out the rate limit, then runs the retry wrapper: it succeeds with the first usable attempt, after as many attempts and the same 1 s/2 s delays, leaving the table the batch produces and reporting the new rows; after three unusable attempts it fails with the last error; the outcome is recorded at `now` |
| Config.PositionFrom | src/main.rs:34 | `position` finds the first argument equal to the flag, and None exactly when there is none |
| Config.FlagValueRule | src/main.rs:32-37 | the first occurrence of a flag decides, and its value is the next argument, if there is one |
| Config.FlagAbsent | src/main.rs:32-37 | an absent flag has no value |
| Config.DatabaseUrl | src/main.rs:32-37 | the URL given after `--database-url`, else `sqlite:markets.db` |
| Config.ApiPort | src/main.rs:39-44 | the port is the u16 parse of the value after the first `--port`, or 3000 when there is none or it does not parse |
| Config.ApiPortFromDecimal | src/main.rs:39-44 | a decimal port after the first `--port` is used when it fits a u16, and 3000 otherwise |
| Config.ApiPortNegative | src/main.rs:39-44 | a negative port gives 3000 |
| Config.ScrapeInterval | src/main.rs:46-51 | the interval is the u64 parse of the value after the first `--scrape-interval`, or 30 when there is none or it does not parse |
| Config.ScrapeIntervalFromDecimal | src/main.rs:46-51 | a decimal interval after the first `--scrape-interval` is used when it fits a u64, and 30 otherwise |
| Config.NoOptionsDefaults | src/main.rs:13-15 | with no options: `sqlite:markets.db`, port 3000, 30 seconds |

## Left out

- The HTTP client, its 30-second timeout, the request header and tokio's scheduling are
  not modelled. Each attempt's outcome is a `Response` parameter.
- The `interval` timer and its skip-missed-ticks behaviour are not modelled. `ScrapeCycle`
  models one cycle once the timer has fired.
- Floating point is not modelled. `as_f64` keeps the JSON number as it is, without rounding
  an integer to the nearest f64. `str::parse::<f64>` and `serde_json::from_str` are
  function parameters.
- Rust string offsets and `len()` count bytes, while the model counts characters. The two
  agree on ASCII. The build-id length test (`> 10`) and the slices in the scan differ on
  non-ASCII pages.
- Each cycle uses a single clock reading `now`, for every upsert and for the metrics. The
  source reads `Utc::now()` once per upsert and once per `record_scrape`.
- ScrapeMetrics.Metrics.RecordScrape: the counters are unbounded. The `AtomicU64` wrap-around
  after 2^64 cycles is not modelled.
- ScrapeMetrics.Metrics.RecordScrape: a poisoned mutex, which skips the time update in the
  source, is not modelled.
- `Relaxed` atomics and concurrent readers of the metrics are not modelled. The model runs
  cycles one at a time.
- Store.MarketStore.Upsert: the check and the write are one step here. In the source they
  are two statements, so a concurrent writer could race between them.
- Storage errors are a set of failed batch positions. Those upserts leave the table
  unchanged and are not counted.
- Store.GetMarketsSince: `discovered_at >= ?` compares timestamps as instants. The
  database's own encoding of timestamps is not modelled.
- Store.GetMarkets: `limit` and `offset` are any naturals, not only u32 values. The order
  of rows with equal `discovered_at` is left open, as in SQL.
- `init_db`'s directory creation, connection-pool options and migrations are not modelled.
  Nor are api.rs, logging and the shutdown handling in main.rs; `DbPath` models only the
  path computation.
- The `/_next/static/` scan resumes at the '/' that ends a rejected segment, so a prefix
  that starts on that '/' is still found. A prefix that starts on the closing '/' of the
  prefix the scan has just matched, 13 characters after it, is not: its '/' lies inside the text already
  consumed. The model keeps this behaviour and proves both the cases it covers and the one
  it misses (`OverlappedPrefixIsSkipped`).
