/** The scrape pipeline of src/scraper.rs: fetching the Next.js data endpoint, storing a
    batch, retrying with exponential backoff, and one cycle of the scraper loop with its
    rate limit and metrics. The network is outside the model: the response of each
    attempt is a parameter. */
module Scraper {
  import opened Wrappers
  import opened Json
  import opened Models
  import opened Text
  import opened Parser
  import opened Store
  import opened ScrapeMetrics

  const POLYMARKET_BASE_URL: string := "https://polymarket.com/_next/data"
  const INDEX_SUFFIX: string := "/index.json"
  const MIN_REQUEST_INTERVAL_SECS: nat := 1
  const NANOS_PER_SEC: nat := 1_000_000_000
  const MAX_RETRIES: nat := 3
  const INITIAL_RETRY_DELAY_SECS: nat := 1
  const JSON_CONTENT_TYPE: string := "application/json"
  /** What a missing or unreadable `content-type` header reads as. */
  const UNKNOWN_CONTENT_TYPE: string := "unknown"

  // ---------------------------------------------------------------- try_fetch_with_build_id

  /** The data URL for a build id. */
  function NextDataUrl(buildId: string): string {
    POLYMARKET_BASE_URL + "/" + buildId + INDEX_SUFFIX
  }

  /** Distinct build ids address distinct URLs, and the id can be read back from its URL. */
  lemma NextDataUrlInjective(a: string, b: string)
    ensures NextDataUrl(a) == NextDataUrl(b) ==> a == b
    ensures NextDataUrl(a)[|POLYMARKET_BASE_URL| + 1 .. |NextDataUrl(a)| - |INDEX_SUFFIX|] == a
  {
    var u := NextDataUrl(a);
    assert u == (POLYMARKET_BASE_URL + "/") + a + INDEX_SUFFIX;
    assert u[|POLYMARKET_BASE_URL| + 1 .. |u| - |INDEX_SUFFIX|] == a;
    var v := NextDataUrl(b);
    assert v == (POLYMARKET_BASE_URL + "/") + b + INDEX_SUFFIX;
    assert v[|POLYMARKET_BASE_URL| + 1 .. |v| - |INDEX_SUFFIX|] == b;
  }

  /** What one GET of the data URL produced: the request failed outright, or a response
      arrived with a status, a readable `content-type` header if there was one, and the
      body's JSON value if the body parsed. */
  datatype Response =
    | SendFailed
    | Received(status: nat, contentType: Option<string>, body: Option<Json>)

  /** `StatusCode::is_success` */
  predicate IsSuccess(status: nat) {
    200 <= status <= 299
  }

  /** `try_fetch_with_build_id`: the body of a 2xx response whose content type mentions
      `application/json` and whose body parses; None for every other outcome. */
  function TryFetch(resp: Response): (r: Option<Json>)
    ensures r.Some? <==> && resp.Received? && IsSuccess(resp.status)
                         && Contains(resp.contentType.GetOr(UNKNOWN_CONTENT_TYPE), JSON_CONTENT_TYPE)
                         && resp.body.Some?
    ensures r.Some? ==> r == resp.body
  {
    match resp
    case SendFailed => None
    case Received(status, contentType, body) =>
      if !IsSuccess(status) then None
      else if !Contains(contentType.GetOr(UNKNOWN_CONTENT_TYPE), JSON_CONTENT_TYPE) then None
      else body
  }

  /** A response without a content type is refused, whatever its status and body. */
  lemma MissingContentTypeRefused(status: nat, body: Option<Json>)
    ensures TryFetch(Received(status, None, body)).None?
  {
    assert FindFrom(UNKNOWN_CONTENT_TYPE, JSON_CONTENT_TYPE, 0).None?;
  }

  /** A JSON content type with parameters is accepted. */
  lemma CharsetContentTypeAccepted(body: Json)
    ensures TryFetch(Received(200, Some("application/json; charset=utf-8"), Some(body))) == Some(body)
  {
    var ct := "application/json; charset=utf-8";
    assert ct == JSON_CONTENT_TYPE + "; charset=utf-8";
    assert OccursAt(ct, JSON_CONTENT_TYPE, 0);
  }

  // ---------------------------------------------------------------- fetch_and_store_markets

  datatype FetchError =
    | FetchFailed(buildId: string)     // the data endpoint gave no usable JSON
    | RetriesExhausted(attempts: nat)  // no attempt recorded an error

  /** The markets parsed out of a fetched document. */
  function Batch(j: Json, parseF64: F64Parser): seq<Market> {
    ParsedEntries(Entries(j), parseF64)
  }

  /** The table after upserting `ms` in order at time `now`, skipping the positions in
      `rejected`, whose upserts the storage engine failed. */
  function ApplyBatch(t: Table, ms: seq<Market>, rejected: set<nat>, now: Timestamp): (t': Table)
    ensures WellFormed(t) ==> WellFormed(t')
    decreases |ms|
  {
    if ms == [] then t
    else
      var i := |ms| - 1;
      var prev := ApplyBatch(t, ms[..i], rejected, now);
      if i in rejected then prev else UpsertRow(prev, ms[i], now)
  }

  /** How many upserts of the batch reported a first sighting. */
  function NewCount(t: Table, ms: seq<Market>, rejected: set<nat>, now: Timestamp): nat
    decreases |ms|
  {
    if ms == [] then 0
    else
      var i := |ms| - 1;
      var prev := ApplyBatch(t, ms[..i], rejected, now);
      NewCount(t, ms[..i], rejected, now) + (if i !in rejected && ms[i].id !in prev then 1 else 0)
  }

  /** The ids of the markets whose upserts the storage engine accepted. */
  function AcceptedIds(ms: seq<Market>, rejected: set<nat>): set<string>
    decreases |ms|
  {
    if ms == [] then {}
    else AcceptedIds(ms[..|ms| - 1], rejected) +
         (if |ms| - 1 in rejected then {} else {ms[|ms| - 1].id})
  }

  /** An id is accepted exactly when some position outside `rejected` carries it. */
  lemma {:induction false} AcceptedIdsMembers(ms: seq<Market>, rejected: set<nat>, x: string)
    ensures x in AcceptedIds(ms, rejected) <==>
            exists i :: 0 <= i < |ms| && i !in rejected && ms[i].id == x
    decreases |ms|
  {
    if ms != [] {
      var init := ms[..|ms| - 1];
      AcceptedIdsMembers(init, rejected, x);
      assert forall j :: 0 <= j < |init| ==> init[j] == ms[j];
    }
  }

  /** The stored ids after a batch: the old ones and those of the accepted upserts. */
  lemma {:induction false} ApplyBatchKeys(t: Table, ms: seq<Market>, rejected: set<nat>, now: Timestamp)
    ensures ApplyBatch(t, ms, rejected, now).Keys == t.Keys + AcceptedIds(ms, rejected)
    decreases |ms|
  {
    if ms != [] {
      var i := |ms| - 1;
      ApplyBatchKeys(t, ms[..i], rejected, now);
      LastUpsertKeys(t, ms, rejected, now);
    }
  }

  /** The ids added by the last market of a batch. */
  lemma LastUpsertKeys(t: Table, ms: seq<Market>, rejected: set<nat>, now: Timestamp)
    requires ms != []
    ensures var i := |ms| - 1;
            var added: set<string> := if i in rejected then {} else {ms[i].id};
            && ApplyBatch(t, ms, rejected, now).Keys == ApplyBatch(t, ms[..i], rejected, now).Keys + added
            && AcceptedIds(ms, rejected) == AcceptedIds(ms[..i], rejected) + added
  {
    var i := |ms| - 1;
    if i !in rejected {
      UpsertRowKeys(ApplyBatch(t, ms[..i], rejected, now), ms[i], now);
    }
  }

  /** One more market of a batch. */
  lemma ApplyBatchStep(t: Table, ms: seq<Market>, rejected: set<nat>, now: Timestamp, i: nat)
    requires i < |ms|
    ensures ApplyBatch(t, ms[..i + 1], rejected, now) ==
            if i in rejected then ApplyBatch(t, ms[..i], rejected, now)
            else UpsertRow(ApplyBatch(t, ms[..i], rejected, now), ms[i], now)
    ensures NewCount(t, ms[..i + 1], rejected, now) ==
            NewCount(t, ms[..i], rejected, now) +
            (if i !in rejected && ms[i].id !in ApplyBatch(t, ms[..i], rejected, now) then 1 else 0)
  {
    assert ms[..i + 1][..i] == ms[..i];
  }

  /** A batch never removes a market and never moves its `discovered_at`. */
  lemma {:induction false} ApplyBatchKeepsDiscovery(t: Table, ms: seq<Market>, rejected: set<nat>, now: Timestamp)
    ensures forall k :: k in t ==>
              (k in ApplyBatch(t, ms, rejected, now) &&
               ApplyBatch(t, ms, rejected, now)[k].discovered_at == t[k].discovered_at)
    decreases |ms|
  {
    if ms != [] {
      ApplyBatchKeepsDiscovery(t, ms[..|ms| - 1], rejected, now);
    }
  }

  /** The count `fetch_and_store_markets` reports is the growth of the table. */
  lemma {:induction false} NewCountIsGrowth(t: Table, ms: seq<Market>, rejected: set<nat>, now: Timestamp)
    ensures |ApplyBatch(t, ms, rejected, now)| == |t| + NewCount(t, ms, rejected, now)
    ensures NewCount(t, ms, rejected, now) <= |ms|
    decreases |ms|
  {
    if ms != [] {
      NewCountIsGrowth(t, ms[..|ms| - 1], rejected, now);
    }
  }

  /** Storing the same batch again, with no storage failures, finds nothing new. */
  lemma SecondStoreFindsNothingNew(t: Table, ms: seq<Market>, now1: Timestamp, now2: Timestamp)
    ensures NewCount(ApplyBatch(t, ms, {}, now1), ms, {}, now2) == 0
  {
    var t1 := ApplyBatch(t, ms, {}, now1);
    var t2 := ApplyBatch(t1, ms, {}, now2);
    ApplyBatchKeys(t, ms, {}, now1);
    ApplyBatchKeys(t1, ms, {}, now2);
    assert t2.Keys == t1.Keys;
    assert |t2| == |t1| by {
      assert |t2| == |t2.Keys|;
      assert |t1| == |t1.Keys|;
    }
    NewCountIsGrowth(t1, ms, {}, now2);
  }

  /** `fetch_and_store_markets`: fails with the build id when the endpoint gives no usable
      JSON, and otherwise upserts every parsed market and reports how many were new. */
  method FetchAndStore(store: MarketStore, buildId: string, resp: Response, parseF64: F64Parser,
                       rejected: set<nat>, now: Timestamp)
    returns (r: Result<nat, FetchError>)
    requires store.Valid()
    modifies store
    ensures store.Valid()
    ensures TryFetch(resp).None? ==> r == Failure(FetchFailed(buildId)) && store.rows == old(store.rows)
    ensures TryFetch(resp).Some? ==>
              var ms := Batch(TryFetch(resp).value, parseF64);
              && r == Success(NewCount(old(store.rows), ms, rejected, now))
              && store.rows == ApplyBatch(old(store.rows), ms, rejected, now)
  {
    var json := TryFetch(resp);
    if json.None? {
      return Failure(FetchFailed(buildId));
    }
    var markets := ParseMarketsFromJson(json.value, parseF64);
    var newCount := 0;
    var i := 0;
    while i < |markets|
      invariant 0 <= i <= |markets|
      invariant store.Valid()
      invariant store.rows == ApplyBatch(old(store.rows), markets[..i], rejected, now)
      invariant newCount == NewCount(old(store.rows), markets[..i], rejected, now)
    {
      ApplyBatchStep(old(store.rows), markets, rejected, now, i);
      if i !in rejected {
        var isNew := store.Upsert(markets[i], now);
        if isNew {
          newCount := newCount + 1;
        }
      }
      i := i + 1;
    }
    assert markets[..i] == markets;
    r := Success(newCount);
  }

  // ---------------------------------------------------------------- fetch_and_store_markets_with_retry

  function Pow2(k: nat): (p: nat)
    ensures p >= 1
  {
    if k == 0 then 1 else 2 * Pow2(k - 1)
  }

  /** The sleeps, in seconds, after the first `n` failed attempts: 1, 2, 4, ... */
  function Backoff(n: nat): (ds: seq<nat>)
    ensures |ds| == n
    ensures forall k :: 0 <= k < n ==> ds[k] == INITIAL_RETRY_DELAY_SECS * Pow2(k)
  {
    if n == 0 then [] else Backoff(n - 1) + [INITIAL_RETRY_DELAY_SECS * Pow2(n - 1)]
  }

  function Sum(s: seq<nat>): nat {
    if s == [] then 0 else Sum(s[..|s| - 1]) + s[|s| - 1]
  }

  /** The sleeps of `n` retries add up to 2^n - 1 seconds. */
  lemma {:induction false} BackoffTotal(n: nat)
    ensures Sum(Backoff(n)) == INITIAL_RETRY_DELAY_SECS * (Pow2(n) - 1)
  {
    if n > 0 {
      BackoffTotal(n - 1);
      assert Backoff(n)[..n - 1] == Backoff(n - 1);
    }
  }

  /** The first of the first `n` attempts whose response is usable. */
  function FirstAccepted(fetch: nat -> Response, n: nat): (r: Option<nat>)
    ensures r.Some? ==> r.value < n && TryFetch(fetch(r.value)).Some?
    ensures r.Some? ==> forall k :: 0 <= k < r.value ==> TryFetch(fetch(k)).None?
    ensures r.None? <==> forall k :: 0 <= k < n ==> TryFetch(fetch(k)).None?
  {
    if n == 0 then None
    else match FirstAccepted(fetch, n - 1)
      case Some(k) => Some(k)
      case None => if TryFetch(fetch(n - 1)).Some? then Some(n - 1) else None
  }

  /** `fetch_and_store_markets_with_retry`: up to three attempts, `fetch(k)` being the
      response to attempt k, sleeping 1 s and 2 s after the first two failures. The first
      usable response is stored and its count returned; if none is usable the last
      attempt's error is returned and nothing is stored. */
  method FetchAndStoreWithRetry(store: MarketStore, buildId: string, fetch: nat -> Response,
                                parseF64: F64Parser, rejected: set<nat>, now: Timestamp)
    returns (r: Result<nat, FetchError>, attempts: nat, delays: seq<nat>)
    requires store.Valid()
    modifies store
    ensures store.Valid()
    ensures match FirstAccepted(fetch, MAX_RETRIES)
      case Some(k) =>
        var ms := Batch(TryFetch(fetch(k)).value, parseF64);
        && attempts == k + 1 && delays == Backoff(k)
        && r == Success(NewCount(old(store.rows), ms, rejected, now))
        && store.rows == ApplyBatch(old(store.rows), ms, rejected, now)
      case None =>
        && attempts == MAX_RETRIES && delays == Backoff(MAX_RETRIES - 1)
        && r == Failure(FetchFailed(buildId))
        && store.rows == old(store.rows)
  {
    var lastError: Option<FetchError> := None;
    attempts := 0;
    delays := [];
    var attempt := 0;
    while attempt < MAX_RETRIES
      invariant 0 <= attempt <= MAX_RETRIES
      invariant attempts == attempt
      invariant forall k :: 0 <= k < attempt ==> TryFetch(fetch(k)).None?
      invariant store.Valid() && store.rows == old(store.rows)
      invariant delays == Backoff(if attempt < MAX_RETRIES then attempt else MAX_RETRIES - 1)
      invariant attempt > 0 ==> lastError == Some(FetchFailed(buildId))
    {
      var res := FetchAndStore(store, buildId, fetch(attempt), parseF64, rejected, now);
      attempts := attempts + 1;
      if res.Success? {
        r := res;
        return;
      }
      lastError := Some(res.error);
      if attempt < MAX_RETRIES - 1 {
        delays := delays + [INITIAL_RETRY_DELAY_SECS * Pow2(attempt)];
      }
      attempt := attempt + 1;
    }
    r := Failure(lastError.GetOr(RetriesExhausted(MAX_RETRIES)));
  }

  // ---------------------------------------------------------------- run_scraper

  /** The pause before a request when the previous one started `elapsedNanos` ago: the
      rest of the one-second minimum interval, or nothing. */
  function RateLimitWait(elapsedNanos: nat): (wait: nat)
    ensures elapsedNanos >= MIN_REQUEST_INTERVAL_SECS * NANOS_PER_SEC ==> wait == 0
    ensures elapsedNanos < MIN_REQUEST_INTERVAL_SECS * NANOS_PER_SEC ==>
              elapsedNanos + wait == MIN_REQUEST_INTERVAL_SECS * NANOS_PER_SEC
  {
    if elapsedNanos / NANOS_PER_SEC < MIN_REQUEST_INTERVAL_SECS then
      MIN_REQUEST_INTERVAL_SECS * NANOS_PER_SEC - elapsedNanos
    else 0
  }

  /** One turn of the `run_scraper` loop, once its interval has ticked: wait out the rate
      limit, fetch and store with retries, and record the outcome in the metrics. */
  method ScrapeCycle(store: MarketStore, metrics: Metrics, buildId: string, fetch: nat -> Response,
                     parseF64: F64Parser, rejected: set<nat>, elapsedNanos: nat, now: Timestamp)
    returns (wait: nat, r: Result<nat, FetchError>, attempts: nat, delays: seq<nat>)
    requires store.Valid() && metrics.Valid()
    modifies store, metrics
    ensures store.Valid() && metrics.Valid()
    ensures wait == RateLimitWait(elapsedNanos)
    ensures match FirstAccepted(fetch, MAX_RETRIES)
      case Some(k) =>
        var ms := Batch(TryFetch(fetch(k)).value, parseF64);
        && attempts == k + 1 && delays == Backoff(k)
        && r == Success(NewCount(old(store.rows), ms, rejected, now))
        && store.rows == ApplyBatch(old(store.rows), ms, rejected, now)
      case None =>
        && attempts == MAX_RETRIES && delays == Backoff(MAX_RETRIES - 1)
        && r == Failure(FetchFailed(buildId))
        && store.rows == old(store.rows)
    ensures r.Success? ==> |store.rows| == |old(store.rows)| + r.value
    ensures metrics.outcomes == old(metrics.outcomes) + [r.Success?]
    ensures metrics.lastScrapeTime == Some(now)
  {
    wait := RateLimitWait(elapsedNanos);
    r, attempts, delays := FetchAndStoreWithRetry(store, buildId, fetch, parseF64, rejected, now);
    if r.Success? {
      var k := FirstAccepted(fetch, MAX_RETRIES).value;
      NewCountIsGrowth(old(store.rows), Batch(TryFetch(fetch(k)).value, parseF64), rejected, now);
    }
    metrics.RecordScrape(r.Success?, now);
  }
}
