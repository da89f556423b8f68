/** The `markets` table of src/db.rs: the upsert that tells a first sighting from an
    update, the three queries, and the database path taken from the connection URL. */
module Store {
  import opened Wrappers
  import opened Models
  import opened Text

  /** The table, keyed by the `id` column (unique). */
  type Table = map<string, Market>

  /** Every row sits under its own id and carries both timestamps, as every write sets them. */
  predicate WellFormed(t: Table) {
    forall k :: k in t ==> t[k].id == k && t[k].discovered_at.Some? && t[k].updated_at.Some?
  }

  /** The row for `m` after `upsert_market` at time `now`: a new id is inserted with every
      field of `m` and both timestamps `now`; a known id has title, description, price,
      volume and end date replaced and `updated_at` set to `now`, keeping `discovered_at`. */
  function UpsertRow(t: Table, m: Market, now: Timestamp): (t': Table)
    ensures m.id in t'
    ensures m.id !in t ==>
              t'[m.id] == m.(discovered_at := Some(now), updated_at := Some(now))
    ensures m.id in t ==>
              && t'[m.id].id == t[m.id].id
              && t'[m.id].discovered_at == t[m.id].discovered_at
              && t'[m.id].updated_at == Some(now)
              && t'[m.id].title == m.title && t'[m.id].description == m.description
              && t'[m.id].current_price == m.current_price && t'[m.id].volume == m.volume
              && t'[m.id].end_date == m.end_date
    ensures forall k :: k != m.id ==> (k in t' <==> k in t)
    ensures forall k :: k != m.id && k in t ==> t'[k] == t[k]
    ensures |t'| == if m.id in t then |t| else |t| + 1
    ensures WellFormed(t) ==> WellFormed(t')
  {
    if m.id !in t then
      t[m.id := m.(discovered_at := Some(now), updated_at := Some(now))]
    else
      var row := t[m.id];
      t[m.id := row.(title := m.title, description := m.description,
                     current_price := m.current_price, volume := m.volume,
                     end_date := m.end_date, updated_at := Some(now))]
  }

  /** An upsert adds exactly the market's id to the stored ids. */
  lemma UpsertRowKeys(t: Table, m: Market, now: Timestamp)
    ensures UpsertRow(t, m, now).Keys == t.Keys + {m.id}
  {
  }

  /** The SQLite table behind the connection pool. */
  class MarketStore {
    var rows: Table

    ghost predicate Valid()
      reads this
    {
      WellFormed(rows)
    }

    /** A freshly migrated, empty table. */
    constructor ()
      ensures Valid() && rows == map[]
    {
      rows := map[];
    }

    /** `upsert_market`: true exactly when no row had `m.id` before. */
    method Upsert(m: Market, now: Timestamp) returns (isNew: bool)
      requires Valid()
      modifies this
      ensures Valid()
      ensures isNew <==> m.id !in old(rows)
      ensures rows == UpsertRow(old(rows), m, now)
    {
      isNew := m.id !in rows;
      rows := UpsertRow(rows, m, now);
    }
  }

  /** A second upsert of the same id is an update: one row, `discovered_at` from the
      first write, everything else and `updated_at` from the second. */
  lemma UpsertTwice(t: Table, m1: Market, m2: Market, now1: Timestamp, now2: Timestamp)
    requires WellFormed(t) && m1.id == m2.id && m1.id !in t
    ensures var t1 := UpsertRow(t, m1, now1);
            var t2 := UpsertRow(t1, m2, now2);
            && m2.id in t1
            && |t2| == |t1| == |t| + 1
            && t2[m2.id] == m2.(discovered_at := Some(now1), updated_at := Some(now2))
  {
  }

  /** `updated_at >= discovered_at` holds in every row while the clock does not run backwards. */
  predicate StampsOrdered(t: Table) {
    forall k :: k in t && t[k].discovered_at.Some? && t[k].updated_at.Some? ==>
      t[k].discovered_at.value <= t[k].updated_at.value
  }

  lemma UpsertKeepsStampsOrdered(t: Table, m: Market, now: Timestamp)
    requires WellFormed(t) && StampsOrdered(t)
    requires m.id in t ==> t[m.id].discovered_at.value <= now
    ensures StampsOrdered(UpsertRow(t, m, now))
  {
  }

  // ---------------------------------------------------------------- ORDER BY discovered_at DESC

  /** `a` may come before `b` in `ORDER BY discovered_at DESC`: later first, NULL last. */
  predicate NoLaterThan(a: Option<Timestamp>, b: Option<Timestamp>) {
    match (a, b)
    case (Some(x), Some(y)) => x >= y
    case (Some(_), None) => true
    case (None, Some(_)) => false
    case (None, None) => true
  }

  /** The order is total and transitive, so a newest-first listing always exists. */
  lemma NoLaterThanTotalOrder(a: Option<Timestamp>, b: Option<Timestamp>, c: Option<Timestamp>)
    ensures NoLaterThan(a, a)
    ensures NoLaterThan(a, b) || NoLaterThan(b, a)
    ensures NoLaterThan(a, b) && NoLaterThan(b, c) ==> NoLaterThan(a, c)
  {
  }

  ghost predicate IsLatest(t: Table, k: string)
    requires k in t
  {
    forall k' :: k' in t ==> NoLaterThan(t[k].discovered_at, t[k'].discovered_at)
  }

  lemma {:induction false} LatestExists(t: Table)
    requires t != map[]
    ensures exists k :: k in t && IsLatest(t, k)
    decreases |t.Keys|
  {
    var k0 :| k0 in t;
    var rest := t - {k0};
    assert rest.Keys == t.Keys - {k0};
    assert forall k :: k in t ==> k == k0 || (k in rest && rest[k] == t[k]);
    if rest == map[] {
      assert IsLatest(t, k0);
    } else {
      LatestExists(rest);
      var k1 :| k1 in rest && IsLatest(rest, k1);
      var latest := if NoLaterThan(t[k0].discovered_at, t[k1].discovered_at) then k0 else k1;
      forall k | k in t ensures NoLaterThan(t[latest].discovered_at, t[k].discovered_at) {
        NoLaterThanTotalOrder(t[k0].discovered_at, t[k1].discovered_at, t[k].discovered_at);
        NoLaterThanTotalOrder(t[k1].discovered_at, t[k0].discovered_at, t[k].discovered_at);
      }
      assert IsLatest(t, latest);
    }
  }

  predicate AllIn(t: Table, ks: seq<string>) {
    forall k :: k in ks ==> k in t
  }

  predicate Distinct(ks: seq<string>) {
    forall i, j :: 0 <= i < j < |ks| ==> ks[i] != ks[j]
  }

  /** Newest first, NULLs last. */
  predicate SortedByDiscovery(t: Table, ks: seq<string>)
    requires AllIn(t, ks)
  {
    forall i, j :: 0 <= i < j < |ks| ==> NoLaterThan(t[ks[i]].discovered_at, t[ks[j]].discovered_at)
  }

  /** `ks` lists every key of `t` once, in `ORDER BY discovered_at DESC` order. */
  ghost predicate Listing(t: Table, ks: seq<string>) {
    && |ks| == |t|
    && AllIn(t, ks)
    && (forall k :: k in t ==> k in ks)
    && Distinct(ks)
    && SortedByDiscovery(t, ks)
  }

  lemma ListingCons(t: Table, k: string, ks: seq<string>)
    requires k in t && IsLatest(t, k)
    requires Listing(t - {k}, ks)
    ensures Listing(t, [k] + ks)
  {
    var rest := t - {k};
    assert rest.Keys == t.Keys - {k};
    assert |rest| == |rest.Keys| == |t.Keys| - 1 == |t| - 1;
    assert AllIn(t, ks) && k !in ks;
    SortedInLargerTable(rest, t, ks);
    ConsKeepsOrder(t, k, ks);
    forall x | x in t ensures x in [k] + ks {
      if x != k {
        assert x in rest;
      }
    }
  }

  /** Rows under the same keys sort the same in a larger table. */
  lemma SortedInLargerTable(small: Table, big: Table, ks: seq<string>)
    requires AllIn(small, ks) && SortedByDiscovery(small, ks)
    requires forall x :: x in small ==> x in big && big[x] == small[x]
    ensures AllIn(big, ks) && SortedByDiscovery(big, ks)
  {
  }

  /** Putting in front a key that is not yet listed and sorts no later than every
      listed key keeps a listing ordered. */
  lemma ConsKeepsOrder(t: Table, k: string, ks: seq<string>)
    requires k in t && k !in ks && AllIn(t, ks)
    requires forall x :: x in ks ==> NoLaterThan(t[k].discovered_at, t[x].discovered_at)
    requires Distinct(ks) && SortedByDiscovery(t, ks)
    ensures AllIn(t, [k] + ks) && Distinct([k] + ks) && SortedByDiscovery(t, [k] + ks)
  {
    var ks' := [k] + ks;
    assert forall i :: 1 <= i < |ks'| ==> ks'[i] == ks[i - 1];
    forall i, j | 0 <= i < j < |ks'|
      ensures ks'[i] != ks'[j]
      ensures NoLaterThan(t[ks'[i]].discovered_at, t[ks'[j]].discovered_at)
    {
      assert ks'[j] in ks;
    }
  }

  /** A newest-first listing built by taking a latest row first, then listing the
      others. */
  ghost function NewestFirst(t: Table): (ks: seq<string>)
    ensures Listing(t, ks)
    decreases |t.Keys|
  {
    if t == map[] then
      assert Listing(t, []);
      []
    else
      LatestExists(t);
      var k :| k in t && IsLatest(t, k);
      var rest := t - {k};
      assert rest.Keys == t.Keys - {k};
      var ks := NewestFirst(rest);
      ListingCons(t, k, ks);
      [k] + ks
  }

  /** The keys in `ORDER BY discovered_at DESC` order. SQL leaves the order of equal
      timestamps open; so does this choice among the listings. */
  ghost function KeysByDiscovery(t: Table): (ks: seq<string>)
    ensures Listing(t, ks)
  {
    assert Listing(t, NewestFirst(t));
    var ks :| Listing(t, ks);
    ks
  }

  /** The rows for the keys `ks`, in the same order. */
  function RowsOf(t: Table, ks: seq<string>): (rs: seq<Market>)
    requires AllIn(t, ks)
    ensures |rs| == |ks| && forall i :: 0 <= i < |ks| ==> rs[i] == t[ks[i]]
  {
    seq(|ks|, i requires 0 <= i < |ks| => t[ks[i]])
  }

  /** `LIMIT limit OFFSET offset`: skip `offset` items, then take at most `limit`. */
  function Page<T>(xs: seq<T>, limit: nat, offset: nat): (p: seq<T>)
    ensures |p| == if offset >= |xs| then 0 else if limit < |xs| - offset then limit else |xs| - offset
    ensures forall i :: 0 <= i < |p| ==> p[i] == xs[offset + i]
  {
    if offset >= |xs| then []
    else
      var hi := if limit < |xs| - offset then offset + limit else |xs|;
      assert forall i :: 0 <= i < hi - offset ==> xs[offset..hi][i] == xs[offset + i];
      xs[offset..hi]
  }

  /** `get_markets(limit, offset)`: the page of rows after skipping `offset` rows of the
      newest-first order, at most `limit` of them, and the count of all rows. */
  ghost function GetMarkets(t: Table, limit: nat, offset: nat): (r: (seq<Market>, nat))
    ensures r.1 == |t|
    ensures |r.0| == if offset >= |t| then 0 else if limit < |t| - offset then limit else |t| - offset
    ensures forall i :: 0 <= i < |r.0| ==> r.0[i] == t[KeysByDiscovery(t)[offset + i]]
    ensures forall i, j :: 0 <= i < j < |r.0| ==> NoLaterThan(r.0[i].discovered_at, r.0[j].discovered_at)
  {
    var ks := KeysByDiscovery(t);
    var page := Page(ks, limit, offset);
    forall k | k in page ensures k in t {
      var i :| 0 <= i < |page| && page[i] == k;
      assert ks[offset + i] in ks;
    }
    (RowsOf(t, page), |t|)
  }

  /** `discovered_at >= since`; a NULL compares as false. */
  predicate DiscoveredSince(m: Market, since: Timestamp) {
    m.discovered_at.Some? && m.discovered_at.value >= since
  }

  /** The keys of `ks`, in order, whose rows were discovered at or after `since`. */
  function KeysSince(t: Table, ks: seq<string>, since: Timestamp): (r: seq<string>)
    requires AllIn(t, ks)
    ensures AllIn(t, r)
    ensures forall k :: k in r <==> k in ks && DiscoveredSince(t[k], since)
  {
    if ks == [] then []
    else if DiscoveredSince(t[ks[0]], since) then [ks[0]] + KeysSince(t, ks[1..], since)
    else KeysSince(t, ks[1..], since)
  }

  /** The filter keeps the order of the listing and lists no key twice. */
  lemma {:induction false} KeysSinceKeepsOrder(t: Table, ks: seq<string>, since: Timestamp)
    requires AllIn(t, ks) && Distinct(ks) && SortedByDiscovery(t, ks)
    ensures Distinct(KeysSince(t, ks, since)) && SortedByDiscovery(t, KeysSince(t, ks, since))
  {
    if ks != [] {
      var tl := ks[1..];
      assert forall i :: 0 <= i < |tl| ==> tl[i] == ks[i + 1];
      KeysSinceKeepsOrder(t, tl, since);
      var rest := KeysSince(t, tl, since);
      if DiscoveredSince(t[ks[0]], since) {
        forall x | x in rest
          ensures x != ks[0] && NoLaterThan(t[ks[0]].discovered_at, t[x].discovered_at)
        {
          var m :| 0 <= m < |tl| && tl[m] == x;
          assert ks[m + 1] == x;
        }
        ConsKeepsOrder(t, ks[0], rest);
      }
    }
  }

  /** `get_markets_since(since)`: exactly the rows discovered at or after `since`, each
      once, newest first. */
  ghost function GetMarketsSince(t: Table, since: Timestamp): (r: seq<Market>)
    requires WellFormed(t)
    ensures forall i :: 0 <= i < |r| ==> r[i].id in t && t[r[i].id] == r[i] && DiscoveredSince(r[i], since)
    ensures forall k :: k in t && DiscoveredSince(t[k], since) ==> t[k] in r
    ensures forall i, j :: 0 <= i < j < |r| ==> r[i].id != r[j].id
    ensures forall i, j :: 0 <= i < j < |r| ==> NoLaterThan(r[i].discovered_at, r[j].discovered_at)
  {
    var ks := KeysByDiscovery(t);
    var sks := KeysSince(t, ks, since);
    KeysSinceKeepsOrder(t, ks, since);
    var r := RowsOf(t, sks);
    assert forall i :: 0 <= i < |sks| ==> sks[i] in sks;
    forall k | k in t && DiscoveredSince(t[k], since) ensures t[k] in r {
      var i :| 0 <= i < |sks| && sks[i] == k;
      assert r[i] == t[k];
    }
    r
  }

  /** `get_market_by_id(id)`: the row with that id, if one exists. */
  function GetMarketById(t: Table, id: string): (r: Option<Market>)
    requires WellFormed(t)
    ensures r.Some? <==> id in t
    ensures r.Some? ==> r.value.id == id && r.value == t[id]
  {
    if id in t then Some(t[id]) else None
  }

  // ---------------------------------------------------------------- init_db

  /** The file path in `init_db`: `sqlite://` is stripped if the URL starts with it, else
      `sqlite:`, else the URL is taken as the path. */
  function DbPath(url: string): (path: string)
    ensures StartsWith(url, "sqlite://") ==> url == "sqlite://" + path
    ensures !StartsWith(url, "sqlite://") && StartsWith(url, "sqlite:") ==> url == "sqlite:" + path
    ensures !StartsWith(url, "sqlite:") ==> path == url
  {
    StartsWithSlice(url, "sqlite://");
    StartsWithSlice(url, "sqlite:");
    if StartsWith(url, "sqlite://") then url[9..]
    else if StartsWith(url, "sqlite:") then url[7..]
    else url
  }

  /** Either scheme prefix is stripped from a URL built on a path; `sqlite:` alone is
      stripped when the path does not itself start with `//`. */
  lemma DbPathStripsScheme(path: string)
    ensures DbPath("sqlite://" + path) == path
    ensures !StartsWith(path, "//") ==> DbPath("sqlite:" + path) == path
  {
    var full := "sqlite://" + path;
    StartsWithSlice(full, "sqlite://");
    assert full[..9] == "sqlite://";
    assert full[9..] == path;
    var short := "sqlite:" + path;
    StartsWithSlice(short, "sqlite://");
    StartsWithSlice(short, "sqlite:");
    StartsWithSlice(path, "//");
    assert short[..7] == "sqlite:";
    assert short[7..] == path;
    if StartsWith(short, "sqlite://") {
      assert path[..2] == short[..9][7..];
    }
  }

  /** The default URL names the file `markets.db` in the working directory. */
  lemma DefaultDbPath()
    ensures DbPath("sqlite:" + "markets.db") == "markets.db"
  {
    DbPathStripsScheme("markets.db");
    StartsWithSlice("markets.db", "//");
    assert "markets.db"[..2][0] == 'm';
  }
}
