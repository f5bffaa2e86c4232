/** The global market-data sync and its read path (src/lib/services/sync-service.ts).

    `MarketData` holds the two pieces of state the service works on: the
    `dailyPrice` table and the JSON cache file. `PerformGlobalSync` walks the
    configured tickers, skips any ticker whose upstream call fails, builds one
    snapshot per successful ticker, upserts its price points and writes the cache.
    `GetCachedStocks` serves the cache immediately and fires a refresh only when the
    cache is more than 120 000 ms old; `GetIntradayPrices` falls back from the cache
    to the table to a fresh sync.

    The upstream chart API is a parameter `fetch` giving each ticker's response; the
    clock is the parameters `today` (the Taipei date) and `now` (epoch milliseconds). */
module SyncService {
  import opened Common
  import opened MarketQuote
  import opened PbValuation
  import opened PriceStore

  /** 官股 (state-owned) or 民營 (private). */
  datatype Category = StateOwned | Private

  datatype Ticker = Ticker(id: string, name: string, category: Category)

  /** The thirteen financial holding companies the sync covers, in its order. */
  const FhcStocks: seq<Ticker> := [
    Ticker("2880", "華南金", StateOwned),
    Ticker("2881", "富邦金", Private),
    Ticker("2882", "國泰金", Private),
    Ticker("2883", "凱基金", Private),
    Ticker("2884", "玉山金", Private),
    Ticker("2885", "元大金", Private),
    Ticker("2886", "兆豐金", StateOwned),
    Ticker("2887", "台新新光金", Private),
    Ticker("2889", "國票金", Private),
    Ticker("2890", "永豐金", Private),
    Ticker("2891", "中信金", Private),
    Ticker("2892", "第一金", StateOwned),
    Ticker("5880", "合庫金", StateOwned)
  ]

  /** One ticker's upstream outcome: a non-OK status, an exception anywhere in the
      request or JSON walk, or a chart with its meta block and parallel arrays. */
  datatype ChartResponse =
    | NotOk
    | Failed
    | Chart(meta: Meta, stamps: seq<Stamp>, closes: seq<Option<real>>)

  /** One ticker's entry in the cache document. */
  datatype Snapshot = Snapshot(
    id: string, name: string, price: real, diff: real, change: real, isUp: bool,
    category: Category, pbPercentile: int, pbValue: real, data: seq<Point>)

  /** A key/value pair of the `stocks` object; the object is an insertion-ordered list. */
  datatype Entry = Entry(key: string, snap: Snapshot)

  /** `new Date(data.lastUpdated || 0)`: a missing field reads as the epoch; a string
      that does not parse yields an invalid date whose age compares false. */
  datatype LastUpdated = Missing | At(ms: int) | Unparseable

  datatype CacheDocument = CacheDocument(lastUpdated: LastUpdated, twDate: string, stocks: Option<seq<Entry>>)

  /** The cache file: not there, there but not valid JSON, or a parsed document. */
  datatype CacheFile = Absent | Corrupt | Stored(doc: CacheDocument)

  /** Which branch of the cached read was taken. */
  datatype ReadPath = ServedFresh | ServedStaleAndRefreshed | SyncedFirst

  const StaleAfterMs := 120000

  // ---------------------------------------------------------------------------
  // The `stocks` object

  /** The keys of the `stocks` object, in its order. */
  function Keys(d: seq<Entry>): (ks: seq<string>)
    ensures |ks| == |d| && forall i :: 0 <= i < |d| ==> ks[i] == d[i].key
  {
    seq(|d|, i requires 0 <= i < |d| => d[i].key)
  }

  /** `Object.values(stocks)` as the list of values in the order the entries are kept.
      The source's keys are integer-like, so `Object.values` lists them in ascending
      numeric order; `SyncedKeysAscending` shows that every document the sync writes
      keeps its entries in exactly that order. */
  function Values(d: seq<Entry>): seq<Snapshot> {
    seq(|d|, i requires 0 <= i < |d| => d[i].snap)
  }

  /** `stocks[key]`. */
  function Lookup(d: seq<Entry>, key: string): (r: Option<Snapshot>)
    ensures r.Some? <==> key in Keys(d)
  {
    if |d| == 0 then None
    else if d[0].key == key then Some(d[0].snap)
    else Lookup(d[1..], key)
  }

  /** With distinct keys, `Object.values` and `stocks[key]` agree: the i-th value is
      what looking up the i-th key finds. */
  lemma {:induction false} ValuesMatchLookup(d: seq<Entry>)
    requires forall i, j :: 0 <= i < j < |d| ==> d[i].key != d[j].key
    ensures |Values(d)| == |d|
    ensures forall i :: 0 <= i < |d| ==> Lookup(d, d[i].key) == Some(Values(d)[i])
  {
    if |d| > 0 {
      ValuesMatchLookup(d[1..]);
      forall i | 0 <= i < |d| ensures Lookup(d, d[i].key) == Some(Values(d)[i]) {
        if i > 0 {
          assert d[1..][i - 1] == d[i];
        }
      }
    }
  }

  /** `stocks[key] = v`: overwrite an existing key in place, else append. */
  function Put(d: seq<Entry>, key: string, v: Snapshot): (r: seq<Entry>)
    ensures Lookup(r, key) == Some(v)
    ensures forall k :: k != key ==> Lookup(r, k) == Lookup(d, k)
    ensures key !in Keys(d) ==> r == d + [Entry(key, v)]
    ensures key in Keys(d) ==> Keys(r) == Keys(d)
  {
    if |d| == 0 then [Entry(key, v)]
    else if d[0].key == key then [Entry(key, v)] + d[1..]
    else
      var rest := Put(d[1..], key, v);
      PutLookupStep(d, key, v, rest);
      PutKeysStep(d, key, v, rest);
      [d[0]] + rest
  }

  /** Lookups through an entry put in front of the tail. */
  lemma PutLookupStep(d: seq<Entry>, key: string, v: Snapshot, rest: seq<Entry>)
    requires |d| > 0 && d[0].key != key
    requires Lookup(rest, key) == Some(v)
    requires forall k :: k != key ==> Lookup(rest, k) == Lookup(d[1..], k)
    ensures Lookup([d[0]] + rest, key) == Some(v)
    ensures forall k :: k != key ==> Lookup([d[0]] + rest, k) == Lookup(d, k)
  {
    assert ([d[0]] + rest)[1..] == rest;
  }

  /** The key list through an entry put in front of the tail. */
  lemma PutKeysStep(d: seq<Entry>, key: string, v: Snapshot, rest: seq<Entry>)
    requires |d| > 0 && d[0].key != key
    requires key !in Keys(d[1..]) ==> rest == d[1..] + [Entry(key, v)]
    requires key in Keys(d[1..]) ==> Keys(rest) == Keys(d[1..])
    ensures key !in Keys(d) ==> [d[0]] + rest == d + [Entry(key, v)]
    ensures key in Keys(d) ==> Keys([d[0]] + rest) == Keys(d)
  {
    var r := [d[0]] + rest;
    KeysCons(d);
    assert r[1..] == rest;
    KeysCons(r);
    if key !in Keys(d) {
      assert d == [d[0]] + d[1..];
    }
  }

  lemma KeysCons(d: seq<Entry>)
    requires |d| > 0
    ensures Keys(d) == [d[0].key] + Keys(d[1..])
  {
  }

  // ---------------------------------------------------------------------------
  // What one sync computes

  /** The snapshot `performGlobalSync` builds for a ticker whose chart arrived. */
  function SnapshotOf(t: Ticker, meta: Meta, stamps: seq<Stamp>, closes: seq<Option<real>>, today: string): Snapshot {
    var mv := Normalise(meta);
    var v := Estimate(t.id, meta.regularMarketPrice);
    Snapshot(t.id, t.name, meta.regularMarketPrice, mv.diff, mv.change, mv.isUp,
             t.category, v.pbPercentile, v.pbValue, Timeline(stamps, closes, today))
  }

  /** The `stocks` object after the loop has visited the given tickers. */
  function SyncedStocks(tickers: seq<Ticker>, fetch: string -> ChartResponse, today: string): seq<Entry> {
    if |tickers| == 0 then []
    else
      var rest := SyncedStocks(tickers[..|tickers| - 1], fetch, today);
      var t := tickers[|tickers| - 1];
      match fetch(t.id)
      case Chart(meta, stamps, closes) => Put(rest, t.id, SnapshotOf(t, meta, stamps, closes, today))
      case _ => rest
  }

  /** The `dailyPrice` table after the loop has visited the given tickers. */
  function UpsertAll(rows: Table, tickers: seq<Ticker>, fetch: string -> ChartResponse): Table {
    if |tickers| == 0 then rows
    else
      var rest := UpsertAll(rows, tickers[..|tickers| - 1], fetch);
      var t := tickers[|tickers| - 1];
      match fetch(t.id)
      case Chart(_, stamps, closes) =>
        if |stamps| > 0 then UpsertBatch(rest, t.id, stamps, closes, |stamps|) else rest
      case _ => rest
  }

  /** The document one sync writes. */
  function SyncDocument(fetch: string -> ChartResponse, today: string, now: int): CacheDocument {
    CacheDocument(At(now), today, Some(SyncedStocks(FhcStocks, fetch, today)))
  }

  /** The tickers whose upstream call succeeded, in list order. */
  function Synced(tickers: seq<Ticker>, fetch: string -> ChartResponse): (ok: seq<Ticker>)
    ensures |ok| <= |tickers|
    ensures forall j :: 0 <= j < |ok| ==> fetch(ok[j].id).Chart?
  {
    if |tickers| == 0 then []
    else
      var t := tickers[|tickers| - 1];
      Synced(tickers[..|tickers| - 1], fetch) + (if fetch(t.id).Chart? then [t] else [])
  }

  /** The synced tickers are exactly those whose upstream call succeeded. */
  lemma {:induction false} SyncedMembers(tickers: seq<Ticker>, fetch: string -> ChartResponse)
    ensures forall t :: t in Synced(tickers, fetch) <==> t in tickers && fetch(t.id).Chart?
  {
    if |tickers| > 0 {
      var init := tickers[..|tickers| - 1];
      SyncedMembers(init, fetch);
      assert tickers == init + [tickers[|tickers| - 1]];
    }
  }

  predicate DistinctIds(tickers: seq<Ticker>) {
    forall i, j :: 0 <= i < j < |tickers| ==> tickers[i].id != tickers[j].id
  }

  function SnapshotFor(t: Ticker, fetch: string -> ChartResponse, today: string): Snapshot
    requires fetch(t.id).Chart?
  {
    var r := fetch(t.id);
    SnapshotOf(t, r.meta, r.stamps, r.closes, today)
  }

  /** Per-ticker isolation: the `stocks` object holds exactly the tickers whose call
      succeeded, in list order, each keyed by its own id with the snapshot built from
      its own response; a failed ticker is simply absent. */
  lemma {:induction false} SyncedStocksExact(tickers: seq<Ticker>, fetch: string -> ChartResponse, today: string)
    requires DistinctIds(tickers)
    ensures var d := SyncedStocks(tickers, fetch, today);
            var ok := Synced(tickers, fetch);
            |d| == |ok| &&
            forall j :: 0 <= j < |d| ==> d[j] == Entry(ok[j].id, SnapshotFor(ok[j], fetch, today))
  {
    if |tickers| > 0 {
      var init := tickers[..|tickers| - 1];
      var t := tickers[|tickers| - 1];
      assert DistinctIds(init);
      SyncedStocksExact(init, fetch, today);
      var rest, okInit := SyncedStocks(init, fetch, today), Synced(init, fetch);
      if fetch(t.id).Chart? {
        assert t.id !in Keys(rest) by {
          SyncedMembers(init, fetch);
          forall j | 0 <= j < |rest| ensures rest[j].key != t.id {
            assert okInit[j] in okInit;
            var i :| 0 <= i < |init| && init[i] == okInit[j];
            assert tickers[i] == init[i];
          }
        }
        assert SyncedStocks(tickers, fetch, today) == rest + [Entry(t.id, SnapshotFor(t, fetch, today))];
        assert Synced(tickers, fetch) == okInit + [t];
      } else {
        assert SyncedStocks(tickers, fetch, today) == rest;
        assert Synced(tickers, fetch) == okInit;
      }
    }
  }

  /** What the sync does to the table: keys are only added, never removed, and the
      rows of any stock that did not sync keep their values. */
  lemma {:induction false} UpsertAllFrame(rows: Table, tickers: seq<Ticker>, fetch: string -> ChartResponse)
    ensures rows.Keys <= UpsertAll(rows, tickers, fetch).Keys
    ensures forall k :: k in rows && (forall t :: t in tickers && fetch(t.id).Chart? ==> t.id != k.0) ==>
              UpsertAll(rows, tickers, fetch)[k] == rows[k]
    ensures forall k :: k in UpsertAll(rows, tickers, fetch) && k !in rows ==>
              exists t :: t in tickers && fetch(t.id).Chart? && t.id == k.0
  {
    if |tickers| > 0 {
      var init := tickers[..|tickers| - 1];
      var t := tickers[|tickers| - 1];
      UpsertAllFrame(rows, init, fetch);
      var rest := UpsertAll(rows, init, fetch);
      var r := UpsertAll(rows, tickers, fetch);
      match fetch(t.id)
      case Chart(_, stamps, closes) =>
        if |stamps| > 0 {
          UpsertBatchShape(rest, t.id, stamps, closes, |stamps|);
          forall k | k in r && k !in rows
            ensures exists t' :: t' in tickers && fetch(t'.id).Chart? && t'.id == k.0
          {
            if k in rest {
              var t' :| t' in init && fetch(t'.id).Chart? && t'.id == k.0;
              assert t' in tickers;
            } else {
              assert Written(t.id, stamps, closes, |stamps|, k);
            }
          }
          forall k | k in rows && (forall t' :: t' in tickers && fetch(t'.id).Chart? ==> t'.id != k.0)
            ensures r[k] == rows[k]
          {
            forall t' | t' in init && fetch(t'.id).Chart? ensures t'.id != k.0 {
              assert t' in tickers;
            }
            assert !Written(t.id, stamps, closes, |stamps|, k);
          }
        } else {
          forall k | k in rows && (forall t' :: t' in tickers && fetch(t'.id).Chart? ==> t'.id != k.0)
            ensures r[k] == rows[k]
          {
            forall t' | t' in init && fetch(t'.id).Chart? ensures t'.id != k.0 {
              assert t' in tickers;
            }
          }
        }
      case _ =>
        forall k | k in rows && (forall t' :: t' in tickers && fetch(t'.id).Chart? ==> t'.id != k.0)
          ensures r[k] == rows[k]
        {
          forall t' | t' in init && fetch(t'.id).Chart? ensures t'.id != k.0 {
            assert t' in tickers;
          }
        }
        forall k | k in r && k !in rows
          ensures exists t' :: t' in tickers && fetch(t'.id).Chart? && t'.id == k.0
        {
          var t' :| t' in init && fetch(t'.id).Chart? && t'.id == k.0;
          assert t' in tickers;
        }
    }
  }

  predicate AscendingKeys(tickers: seq<Ticker>) {
    forall i, j :: 0 <= i < j < |tickers| ==> CodeValue(tickers[i].id) < CodeValue(tickers[j].id)
  }

  /** Key values that grow from each ticker to the next grow along the whole list, which
      makes the ids distinct. */
  lemma AscendingIdsDistinct(tickers: seq<Ticker>)
    requires forall k :: 0 <= k < |tickers| - 1 ==> CodeValue(tickers[k].id) < CodeValue(tickers[k + 1].id)
    ensures AscendingKeys(tickers)
    ensures DistinctIds(tickers)
  {
    var ids := seq(|tickers|, i requires 0 <= i < |tickers| => tickers[i].id);
    CodesAscending(ids);
    forall i, j | 0 <= i < j < |tickers| ensures CodeValue(tickers[i].id) < CodeValue(tickers[j].id) {
      assert ids[i] == tickers[i].id && ids[j] == tickers[j].id;
    }
  }

  /** The configured tickers are listed in ascending numeric order of their codes, so
      their ids are distinct. */
  lemma FhcIdsDistinct()
    ensures AscendingKeys(FhcStocks)
    ensures DistinctIds(FhcStocks)
  {
    assert forall k :: 0 <= k < |FhcStocks| - 1 ==> CodeValue(FhcStocks[k].id) < CodeValue(FhcStocks[k + 1].id);
    AscendingIdsDistinct(FhcStocks);
  }

  /** Skipping failed tickers keeps an ascending list ascending. */
  lemma {:induction false} SyncedAscending(tickers: seq<Ticker>, fetch: string -> ChartResponse)
    requires AscendingKeys(tickers)
    ensures AscendingKeys(Synced(tickers, fetch))
  {
    if |tickers| > 0 {
      var init, t := tickers[..|tickers| - 1], tickers[|tickers| - 1];
      assert AscendingKeys(init);
      SyncedAscending(init, fetch);
      SyncedMembers(init, fetch);
      var ok := Synced(init, fetch);
      if fetch(t.id).Chart? {
        var r := Synced(tickers, fetch);
        assert r == ok + [t];
        forall i, j | 0 <= i < j < |r| ensures CodeValue(r[i].id) < CodeValue(r[j].id) {
          if j == |ok| {
            assert r[i] == ok[i] && ok[i] in ok;
            var k :| 0 <= k < |init| && init[k] == ok[i];
            assert tickers[k] == init[k];
          }
        }
      }
    }
  }

  /** The sync inserts its keys in ascending numeric order, which is the order in which
      `Object.values`, and the JSON round trip of the cache file, list integer-like
      keys; so for every document the sync writes, the insertion order kept by this
      model is the order the source reads back. */
  lemma SyncedKeysAscending(fetch: string -> ChartResponse, today: string)
    ensures var d := SyncedStocks(FhcStocks, fetch, today);
            forall i, j :: 0 <= i < j < |d| ==> CodeValue(d[i].key) < CodeValue(d[j].key)
  {
    FhcIdsDistinct();
    SyncedStocksExact(FhcStocks, fetch, today);
    SyncedAscending(FhcStocks, fetch);
  }

  // ---------------------------------------------------------------------------
  // Reading the cache

  /** `data.stocks ? Object.values(data.stocks) : []`. */
  function StockList(doc: CacheDocument): (r: seq<Snapshot>)
    ensures doc.stocks.None? ==> r == []
    ensures doc.stocks.Some? ==>
              (|r| == |doc.stocks.value| && forall j :: 0 <= j < |r| ==> r[j] == doc.stocks.value[j].snap)
  {
    if doc.stocks.Some? then Values(doc.stocks.value) else []
  }

  /** `now - lastUpdated > 120000`; an invalid date never compares greater. */
  predicate IsStale(lu: LastUpdated, now: int) {
    match lu
    case Missing => now - 0 > StaleAfterMs
    case At(t) => now - t > StaleAfterMs
    case Unparseable => false
  }

  /** Staleness only grows with time, is decided by the last-updated stamp alone (the
      trading-day field plays no part), and a missing stamp counts as the epoch. */
  lemma StalenessRule(lu: LastUpdated, now: int, later: int)
    requires now <= later
    ensures IsStale(lu, now) ==> IsStale(lu, later)
    ensures IsStale(Missing, now) <==> IsStale(At(0), now)
    ensures !IsStale(Unparseable, later)
  {
  }

  /** After a sync, readers see exactly the synced tickers' snapshots in list order. */
  lemma ReadAfterSync(fetch: string -> ChartResponse, today: string, now: int)
    ensures var vs := StockList(SyncDocument(fetch, today, now));
            var ok := Synced(FhcStocks, fetch);
            |vs| == |ok| &&
            forall j :: 0 <= j < |vs| ==> vs[j] == SnapshotFor(ok[j], fetch, today) && vs[j].id == ok[j].id
  {
    FhcIdsDistinct();
    SyncedStocksExact(FhcStocks, fetch, today);
  }

  // ---------------------------------------------------------------------------
  // The table read of the intraday fallback

  /** The timestamps of one stock's rows at or after a cutoff. */
  function Matching(rows: Table, stockId: string, from: int): (s: set<int>)
    ensures forall t :: t in s <==> (stockId, t) in rows && t >= from
  {
    set k | k in rows && k.0 == stockId && k.1 >= from :: k.1
  }

  /** A set of timestamps listed from the earliest on. */
  ghost function Ascending(s: set<int>): (r: seq<int>)
    ensures forall i :: 0 <= i < |r| ==> r[i] in s
    decreases |s|
  {
    if s == {} then []
    else
      HasEarliest(s);
      var m :| m in s && forall x :: x in s ==> m <= x;
      [m] + Ascending(s - {m})
  }

  /** The earliest member heads the listing. */
  lemma AscendingFirst(s: set<int>, m: int)
    requires m in s && forall x :: x in s ==> m <= x
    ensures Ascending(s) == [m] + Ascending(s - {m})
  {
  }

  /** The listing holds every member exactly once, strictly increasing. */
  lemma {:induction false} AscendingSorted(s: set<int>)
    ensures |Ascending(s)| == |s|
    ensures forall x :: x in s ==> x in Ascending(s)
    ensures forall i, j :: 0 <= i < j < |Ascending(s)| ==> Ascending(s)[i] < Ascending(s)[j]
    decreases |s|
  {
    if s != {} {
      HasEarliest(s);
      var m :| m in s && forall x :: x in s ==> m <= x;
      AscendingFirst(s, m);
      AscendingSorted(s - {m});
      var r := Ascending(s);
      forall x | x in s ensures x in r {
        if x != m {
          assert x in Ascending(s - {m});
        }
      }
      var tail := Ascending(s - {m});
      forall i | 0 <= i < |tail| ensures m < tail[i] {
        assert tail[i] in s - {m};
      }
      ConsIncreasing(m, tail);
    }
  }

  lemma ConsIncreasing(m: int, tail: seq<int>)
    requires forall i, j :: 0 <= i < j < |tail| ==> tail[i] < tail[j]
    requires forall i :: 0 <= i < |tail| ==> m < tail[i]
    ensures forall i, j :: 0 <= i < j < |[m] + tail| ==> ([m] + tail)[i] < ([m] + tail)[j]
  {
  }

  /** `findMany({ where: { stockId, timestamp: { gte: from } }, orderBy: { timestamp: "asc" } })`
      as (timestamp, price) pairs. */
  ghost function RecentSeries(rows: Table, stockId: string, from: int): (r: seq<(int, real)>)
  {
    var ts := Ascending(Matching(rows, stockId, from));
    seq(|ts|, j requires 0 <= j < |ts| => (ts[j], rows[(stockId, ts[j])].price))
  }

  /** The intraday display of table rows: "HH:MM" label and price. */
  function Display(rows: seq<(int, real)>, clock: int -> string): seq<Point> {
    seq(|rows|, j requires 0 <= j < |rows| => Point(clock(rows[j].0), rows[j].1))
  }

  // ---------------------------------------------------------------------------
  // The service state

  /** The snapshot the sync loop builds from one ticker's chart: the movement against
      the previous close, the price-to-book estimate (defaults 1.5 and 50 without a
      book value or a positive price) and the timeline. */
  method ChartSnapshot(t: Ticker, meta: Meta, stamps: seq<Stamp>, closes: seq<Option<real>>, today: string)
    returns (snap: Snapshot)
    ensures snap == SnapshotOf(t, meta, stamps, closes, today)
  {
    var currentPrice := meta.regularMarketPrice;
    var prevClose := PrevClose(meta);
    var mv := Move(currentPrice, prevClose);
    var timeline := Timeline(stamps, closes, today);

    var pbValue := 1.5;
    var pbPercentile := 50;
    var bookValue := BookValue(t.id);
    if bookValue.Some? && currentPrice > 0.0 {
      var realPB := currentPrice / bookValue.value;
      pbValue := Hundredths(realPB);
      pbPercentile := Percentile(realPB);
    }
    snap := Snapshot(t.id, t.name, currentPrice, mv.diff, mv.change, mv.isUp, t.category, pbPercentile, pbValue,
                     timeline);
  }

  class MarketData {
    /** The `dailyPrice` table. */
    var rows: Table
    /** The cache file on disk. */
    var cache: CacheFile

    constructor (rows0: Table, cache0: CacheFile)
      ensures rows == rows0 && cache == cache0
    {
      rows := rows0;
      cache := cache0;
    }

    /** The table writes for one ticker's chart: one upsert per point with a close. */
    method UpsertChart(id: string, stamps: seq<Stamp>, closes: seq<Option<real>>)
      modifies this
      ensures rows == UpsertBatch(old(rows), id, stamps, closes, |stamps|)
      ensures cache == old(cache)
    {
      for j := 0 to |stamps|
        invariant rows == UpsertBatch(old(rows), id, stamps, closes, j)
        invariant cache == old(cache)
      {
        var price := QuoteAt(closes, j);
        if price.None? {
          continue;
        }
        rows := UpsertPoint(rows, KeyAt(id, stamps, j), price.value);
      }
    }

    /** `performGlobalSync`: one pass over the tickers, then a whole-file cache write. */
    method PerformGlobalSync(fetch: string -> ChartResponse, today: string, now: int) returns (doc: CacheDocument)
      modifies this
      ensures doc == SyncDocument(fetch, today, now)
      ensures cache == Stored(doc)
      ensures rows == UpsertAll(old(rows), FhcStocks, fetch)
    {
      var stocks: seq<Entry> := [];
      for i := 0 to |FhcStocks|
        invariant stocks == SyncedStocks(FhcStocks[..i], fetch, today)
        invariant rows == UpsertAll(old(rows), FhcStocks[..i], fetch)
      {
        var t := FhcStocks[i];
        ghost var done := FhcStocks[..i + 1];
        assert |done| == i + 1 && done[..i] == FhcStocks[..i] && done[i] == t;
        var res := fetch(t.id);
        if !res.Chart? {
          // a non-OK status or an exception skips this ticker only
          continue;
        }
        var snap := ChartSnapshot(t, res.meta, res.stamps, res.closes, today);
        stocks := Put(stocks, t.id, snap);
        if |res.stamps| > 0 {
          UpsertChart(t.id, res.stamps, res.closes);
        }
      }
      assert FhcStocks[..|FhcStocks|] == FhcStocks;
      doc := CacheDocument(At(now), today, Some(stocks));
      cache := Stored(doc);
    }

    /** `getCachedStocks`: a readable cache is returned as it is; when it is older than
        120 000 ms a refresh is started without being awaited (its effect on the state
        is applied here after the answer is fixed). An absent or unreadable cache is
        rebuilt by an awaited sync first. */
    method GetCachedStocks(fetch: string -> ChartResponse, today: string, now: int)
      returns (stocks: seq<Snapshot>, path: ReadPath)
      modifies this
      ensures old(cache).Stored? ==> stocks == StockList(old(cache).doc)
      ensures old(cache).Stored? && !IsStale(old(cache).doc.lastUpdated, now) ==>
                path == ServedFresh && rows == old(rows) && cache == old(cache)
      ensures old(cache).Stored? && IsStale(old(cache).doc.lastUpdated, now) ==>
                path == ServedStaleAndRefreshed &&
                cache == Stored(SyncDocument(fetch, today, now)) && rows == UpsertAll(old(rows), FhcStocks, fetch)
      ensures !old(cache).Stored? ==>
                path == SyncedFirst &&
                stocks == StockList(SyncDocument(fetch, today, now)) &&
                cache == Stored(SyncDocument(fetch, today, now)) && rows == UpsertAll(old(rows), FhcStocks, fetch)
    {
      if cache.Stored? {
        var doc := cache.doc;
        stocks := StockList(doc);
        if IsStale(doc.lastUpdated, now) {
          path := ServedStaleAndRefreshed;
          var _ := PerformGlobalSync(fetch, today, now);
        } else {
          path := ServedFresh;
        }
        return;
      }
      path := SyncedFirst;
      var _ := PerformGlobalSync(fetch, today, now);
      stocks := StockList(cache.doc);
    }

    /** The table read of `getIntradayPrices`: one stock's rows since `from`, ascending. */
    method RecentRows(stockId: string, from: int) returns (pts: seq<(int, real)>)
      ensures pts == RecentSeries(rows, stockId, from)
    {
      var all := Matching(rows, stockId, from);
      var remaining := all;
      ghost var done: seq<int> := [];
      pts := [];
      while remaining != {}
        invariant remaining <= all
        invariant done + Ascending(remaining) == Ascending(all)
        invariant forall j :: 0 <= j < |done| ==> done[j] in all
        invariant |pts| == |done|
        invariant forall j :: 0 <= j < |pts| ==> pts[j] == (done[j], rows[(stockId, done[j])].price)
        decreases |remaining|
      {
        HasEarliest(remaining);
        var m :| m in remaining && forall x :: x in remaining ==> m <= x;
        AscendingFirst(remaining, m);
        var rest := remaining - {m};
        ghost var tail := Ascending(rest);
        assert done + ([m] + tail) == (done + [m]) + tail;
        var p := (m, rows[(stockId, m)].price);
        pts := pts + [p];
        done := done + [m];
        remaining := rest;
      }
      assert done == Ascending(all);
    }

    /** `getIntradayPrices`: the cached series of the ticker (or [] when the cache has
        no such ticker); without a usable cache, the table's last 24 hours in
        ascending order; with nothing there either, an awaited sync and []. */
    method GetIntradayPrices(stockId: string, fetch: string -> ChartResponse, today: string, now: int,
                             clock: int -> string)
      returns (points: seq<Point>)
      modifies this
      ensures old(cache).Stored? && old(cache).doc.stocks.Some? ==>
                rows == old(rows) && cache == old(cache) &&
                points == (match Lookup(old(cache).doc.stocks.value, stockId)
                           case Some(s) => s.data
                           case None => [])
      ensures !(old(cache).Stored? && old(cache).doc.stocks.Some?) && RecentSeries(old(rows), stockId, now - DayMs) != [] ==>
                rows == old(rows) && cache == old(cache) &&
                points == Display(RecentSeries(old(rows), stockId, now - DayMs), clock)
      ensures !(old(cache).Stored? && old(cache).doc.stocks.Some?) && RecentSeries(old(rows), stockId, now - DayMs) == [] ==>
                points == [] &&
                cache == Stored(SyncDocument(fetch, today, now)) && rows == UpsertAll(old(rows), FhcStocks, fetch)
    {
      if cache.Stored? && cache.doc.stocks.Some? {
        var stock := Lookup(cache.doc.stocks.value, stockId);
        points := if stock.Some? then stock.value.data else [];
        return;
      }
      // an unreadable cache, or one without `stocks`, falls through to the table
      var dbPrices := RecentRows(stockId, now - DayMs);
      if |dbPrices| > 0 {
        points := Display(dbPrices, clock);
        return;
      }
      var _ := PerformGlobalSync(fetch, today, now);
      points := [];
    }

    /** `cleanupOldIntradayData`: delete every row older than 24 hours. */
    method CleanupOldIntradayData(now: int)
      modifies this
      ensures rows == Prune(old(rows), now - DayMs)
      ensures cache == old(cache)
    {
      rows := Prune(rows, now - DayMs);
    }
  }
}
