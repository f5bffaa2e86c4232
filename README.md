# financial-monitor, modelled in Dafny

financial-monitor is a Next.js dashboard for the thirteen Taiwanese financial holding
companies (華南金 2880 … 合庫金 5880). This project models its core logic in Dafny and
proves properties of that model.

- **Market-data sync service** (`src/lib/services/sync-service.ts`). It polls the
  upstream chart API per ticker and normalises each quote (the previous-close fallback
  chain, diff, change and isUp). It filters today's intraday timeline, estimates a
  price-to-book value and percentile, and upserts price points into the `dailyPrice`
  table. It then writes the JSON cache document. Reads serve that cache with a
  120-second background refresh, fall back from the cache to the table, and finally to
  a fresh sync. Rows older than 24 hours are pruned.
- **API routes**:
  - chip flows from the exchange's daily institutional table, with its `parseInt`
    parsing and its weekday window;
  - the realtime whitelist;
  - portfolio holdings, upserted by (user, stock) and deleted by id;
  - saved tax scenarios, listed newest first.
- **Page logic**:
  - the dashboard search filter, realtime merge and selection toggle;
  - portfolio enrichment, totals and the asset-composition chart;
  - the holding table rows;
  - the chart's sort / de-duplicate / sort normalisation;
  - the P/B heat map with its in-place sorts;
  - the dividend tax calculator: supplementary health-insurance premium, 8.5 % credit
    capped at 80 000, bracket table and save guard.

## How the model is organised

There is one module per source file, plus `Common`:

- `Common` holds `Option`, the JavaScript number helpers (`Math.floor`, `Math.round` as
  floor(x + 0.5), `Math.min`, `x || 0`) and a stable insertion sort `SortBy`. The sort
  is proved to be sorted, a permutation and stable.
- State the source changes in place is modelled as classes:
  - `SyncService.MarketData` holds the price table and the cache file;
  - `PortfolioApi.HoldingTable` and `TaxScenariosApi.ScenarioTable` are the two
    database tables.
- Each of these methods is proved against pure specification functions (`SyncDocument`,
  `UpsertAll`, `Upsert`, `WithoutId`, …). The lemmas state the properties.
- The P/B page sorts its state array in place, so `Valuation.SortInPlace` is an
  insertion sort on an `array`.
- The cache document's `stocks` object is a list of entries in insertion order.
  `Object.values` (and the JSON round trip of the cache file) lists integer-like keys
  such as "2880" in ascending numeric order instead. The two orders agree for every
  document the sync writes: the sync visits the configured tickers in ascending code
  order and skips failures without reordering (`SyncService.SyncedKeysAscending`). A
  cache file written by anything else is not modelled.
- The network, the clock, `Intl` date formatting and the file system become
  parameters:
  - a `fetch` function giving each request's outcome;
  - `today` and `now`;
  - per timestamp, its Taipei date and "HH:MM" label;
  - an abstract cache-file value.

Some facts about the code that the model follows:

- A cache is refreshed in the background once it is more than 120 000 ms old; that is
  the only staleness threshold. There is no day-rollover check: `twDate` plays no part
  in the decision (`SyncService.StalenessRule`).
- A ticker whose upstream call fails is absent from the new document. Its previous
  snapshot is not carried over (`SyncService.SyncedStocksExact`).
- The sync does not prune the price table. Pruning happens only in
  `cleanupOldIntradayData` (`SyncService.MarketData.CleanupOldIntradayData`).
- The cache file is written with a plain whole-file write. No temp-file-and-rename is
  modelled.
- The table writes are not awaited by the sync. The model applies them when the sync
  runs.

Some behaviour of the code is proved as it is written:

- The portfolio API returns holdings without a current price, so the portfolio page
  values every holding at 0 and the composition chart is empty
  (`Portfolio.UnpricedHoldings`).
- An empty `userId` in a portfolio POST is stored under "", but GET reads "" as
  "default-user" (`PortfolioApi.EmptyUserIdNotListed`).
- The health-insurance premium applies to the whole dividend once it reaches 20 000, so
  the net dividend drops across the threshold (`TaxCalculator.NhiCliff`).
- The P/B page loads its stocks from `/api/stock-prices/realtime`, whose items carry
  no `pbPercentile`. Every comparison with the undefined percentile is false, so every
  heat cell is the deepest red and every label the most overvalued
  (`Valuation.LoadedStocksLookOvervalued`). Every percentile comparator returns NaN,
  which the sort reads as "equal", so the grid keeps the loaded order
  (`Valuation.RenderGrid`). The 最被低估 and 最被高估 cards both show the first
  stock (`Valuation.RenderCards`).
- In the chart, an empty time string sorts as 00:00 but is charted at 09:00. It can
  therefore displace a real 09:00 point (`TradingChart.EmptyTimeDisplacesNineOClock`).

## Model

| member | source | states |
|---|---|---|
| Common.Floor | src/app/api/tax/scenarios/route.ts:31 | `Math.floor`: the result is the greatest integer not above x |
| Common.Round | src/lib/services/sync-service.ts:115 | `Math.round`: the result lies within half a unit of x, halves rounding up |
| Common.Min | src/app/tax/page.tsx:150 | `Math.min`: the result is one of the arguments and at most both |
| Common.OrZero | src/app/api/tax/scenarios/route.ts:32-37 | `x \|\| 0`: the result is 0 exactly when the number is missing or 0, and any other result is the number given |
| Common.UserOrDefault | src/app/api/portfolio/route.ts:8 | `userId \|\| "default-user"` (also scenarios route lines 7 and 28): a missing or empty id reads as "default-user", any other id as itself |
| Common.RoundMonotone | src/lib/services/sync-service.ts:114-122 | rounding never maps a larger argument lower |
| Common.RoundOfInt | src/lib/services/sync-service.ts:121 | rounding an integer gives it back |
| Common.RoundWithin | src/lib/services/sync-service.ts:114-122 | rounding stays within integer bounds that enclose the argument |
| Common.SortBySorted | src/components/TradingChart.tsx:120 | the array sort yields a permutation of its input, ordered by key |
| Common.SortByStable | src/components/TradingChart.tsx:120 | the sort is stable: elements with equal keys keep their input order |
| Common.KeyFilterMembers | src/components/TradingChart.tsx:133-135 | the elements with key k are exactly the input's elements whose key is k |
| Common.CodesAscending | src/lib/services/sync-service.ts:7-21 | stock codes whose numeric values increase from each to the next increase along the whole list |
| MarketQuote.PrevClose | src/lib/services/sync-service.ts:61 | previousClose if truthy, else chartPreviousClose if truthy, else the current price |
| MarketQuote.Move | src/lib/services/sync-service.ts:62-63 | diff + previous close is the price; change is diff in percent of a positive previous close, else 0; isUp iff price ≥ previous close |
| MarketQuote.ZeroDiffFallback | src/lib/services/sync-service.ts:61-63 | with both closes missing or 0, the movement is diff 0, change 0, up |
| MarketQuote.ChangeSignMatchesIsUp | src/lib/services/sync-service.ts:63 | with a positive previous close, isUp agrees with the sign of change |
| MarketQuote.ChartPreviousCloseExample | src/lib/services/sync-service.ts:60-61 | a null previousClose falls back to chartPreviousClose (50 vs 48 gives +2, 25/6 %) |
| MarketQuote.KeptExactly | src/lib/services/sync-service.ts:67-81 | an index is kept exactly when it has a timestamp, a present non-zero close inside the closes array (`quotes[i] \|\| null`) and today's Taipei date; a timestamp past a shorter closes array is dropped |
| MarketQuote.Kept | src/lib/services/sync-service.ts:67-81 | the filter's test on one index; its meaning is stated by `KeptExactly` |
| MarketQuote.Timeline | src/lib/services/sync-service.ts:66-81 | the map-and-filter pipeline; its contents and order are stated by `TimelineIsKeptPoints` and `TimelineContents` |
| MarketQuote.KeptIndices | src/lib/services/sync-service.ts:67-81 | the kept indices are increasing and are exactly those with today's date and a close |
| MarketQuote.TimelineIsKeptPoints | src/lib/services/sync-service.ts:67-81 | the timeline is the kept indices' points, in timestamp order |
| MarketQuote.TimelineContents | src/lib/services/sync-service.ts:67-81 | every timeline point is a kept timestamp's point, and every kept timestamp appears |
| MarketQuote.YesterdayDropped | src/lib/services/sync-service.ts:66-81 | a point stamped with yesterday's Taipei date is filtered out |
| PbValuation.BookValue | src/lib/services/sync-service.ts:85-99 | every book value of the fixed per-ticker table is positive, so the guard at line 105 turns only on the presence of a value and on the price |
| PbValuation.Hundredths | src/lib/services/sync-service.ts:107 | `Number(x.toFixed(2))` is a whole number of hundredths within 0.005 of x, which fixes it uniquely |
| PbValuation.Estimate | src/lib/services/sync-service.ts:101-126 | neutral (1.5, 50) without a book value or a positive price; otherwise its percentile and a P/B value that is the ratio rounded to a whole number of hundredths |
| PbValuation.Percentile | src/lib/services/sync-service.ts:114-122 | the piecewise P/B-to-percentile scale; stated by `PercentileBands`, `PercentileBreakpoints`, `PercentileMonotone` and `PercentileFloor` |
| PbValuation.PercentileBands | src/lib/services/sync-service.ts:114-122 | each P/B band lands in its stated range (0–30, 30–60, 60–85, 85–100) and the scale stays in [0, 100] |
| PbValuation.PercentileBreakpoints | src/lib/services/sync-service.ts:114-122 | the breakpoints 1.0, 1.5 and 2.0 map to 30, 60 and 85; P/B ≥ 3 maps to 100 |
| PbValuation.PercentileMonotone | src/lib/services/sync-service.ts:114-122 | a higher P/B never gets a lower percentile |
| PbValuation.PercentileFloor | src/lib/services/sync-service.ts:116-121 | at or above a breakpoint the percentile is at least that breakpoint's value |
| PbValuation.EstimateMonotoneInPrice | src/lib/services/sync-service.ts:104-122 | for a ticker with a book value, a higher price never lowers the percentile |
| PbValuation.EstimateInRange | src/lib/services/sync-service.ts:101-122 | the percentile is always within [0, 100] |
| PriceStore.UpsertPoint | src/lib/services/sync-service.ts:146-160 | the keyed row gets the new price; a new row gets volume 0 and an existing one keeps its volume; other rows are untouched |
| PriceStore.UpsertBatch | src/lib/services/sync-service.ts:142-161 | one ticker's per-point upserts in timestamp order; stated by `UpsertBatchShape` and `UpsertBatchIdempotent` |
| PriceStore.UpsertBatchShape | src/lib/services/sync-service.ts:142-161 | every timestamp with a close is written with its last close; every other row is unchanged |
| PriceStore.UpsertBatchIdempotent | src/lib/services/sync-service.ts:142-161 | replaying one ticker's batch leaves the table as one batch left it |
| PriceStore.Prune | src/lib/services/sync-service.ts:267-269 | exactly the rows at or after the cutoff remain, unchanged |
| PriceStore.PruneIdempotent | src/lib/services/sync-service.ts:264-270 | pruning twice with the same cutoff equals pruning once |
| SyncService.Values | src/lib/services/sync-service.ts:200 | `Object.values` over the entries in their kept order, which `SyncedKeysAscending` shows is the source's ascending numeric key order; stated by `ValuesMatchLookup` |
| SyncService.ValuesMatchLookup | src/lib/services/sync-service.ts:200-225 | with distinct keys, the i-th value `Object.values` lists is what looking up the i-th key finds |
| SyncService.Lookup | src/lib/services/sync-service.ts:225 | `stocks[key]` is present exactly when the key is |
| SyncService.Put | src/lib/services/sync-service.ts:128-139 | after `stocks[id] = v` the key maps to v and every other key is unchanged; a new key is appended, an existing one keeps its place |
| SyncService.Synced | src/lib/services/sync-service.ts:47-51 | no more tickers are kept than listed, and every kept ticker's upstream call succeeded |
| SyncService.SyncedStocks | src/lib/services/sync-service.ts:47-139 | the `stocks` object the loop builds; stated by `SyncedStocksExact` and `SyncedKeysAscending` |
| SyncService.UpsertAll | src/lib/services/sync-service.ts:142-166 | the table after every ticker's upserts; stated by `UpsertAllFrame` |
| SyncService.SyncDocument | src/lib/services/sync-service.ts:40-45 | the document one sync writes, stamped now and today; stated by `MarketData.PerformGlobalSync` and `ReadAfterSync` |
| SyncService.SyncedMembers | src/lib/services/sync-service.ts:47-51 | a ticker is synced exactly when its call succeeded |
| SyncService.SyncedStocksExact | src/lib/services/sync-service.ts:47-139 | the `stocks` object holds exactly the synced tickers, in list order, each keyed by its own id with its own snapshot |
| SyncService.UpsertAllFrame | src/lib/services/sync-service.ts:142-166 | the sync only adds table keys, adds them only for synced tickers, and leaves the rows of other stocks unchanged |
| SyncService.AscendingIdsDistinct | src/lib/services/sync-service.ts:7-21 | tickers whose codes increase from each to the next ascend along the list and have pairwise distinct ids |
| SyncService.FhcIdsDistinct | src/lib/services/sync-service.ts:7-21 | the thirteen configured codes ascend numerically, so their ids are distinct |
| SyncService.SyncedAscending | src/lib/services/sync-service.ts:47-51 | skipping failed tickers keeps an ascending list ascending |
| SyncService.SyncedKeysAscending | src/lib/services/sync-service.ts:47-139 | every document the sync writes holds its keys in ascending numeric order, the order `Object.values` reads them back in |
| SyncService.StockList | src/lib/services/sync-service.ts:200 | a document without `stocks` gives []; otherwise the snapshots in order |
| SyncService.IsStale | src/lib/services/sync-service.ts:189-194 | the staleness test; stated by `StalenessRule` |
| SyncService.StalenessRule | src/lib/services/sync-service.ts:189-194 | staleness is more than 120 000 ms since lastUpdated; it persists as time passes; a missing stamp counts as the epoch and an unparseable one is never stale |
| SyncService.ReadAfterSync | src/lib/services/sync-service.ts:38-200 | after a sync, the cached read returns exactly the synced tickers' snapshots, in list order |
| SyncService.Matching | src/lib/services/sync-service.ts:232-237 | the timestamps selected are exactly the stock's rows at or after the cutoff |
| SyncService.Ascending | src/lib/services/sync-service.ts:237 | the ordered listing holds only members of the set |
| SyncService.AscendingFirst | src/lib/services/sync-service.ts:237 | the earliest timestamp heads the ascending listing |
| SyncService.AscendingSorted | src/lib/services/sync-service.ts:237 | the listing holds each member once, strictly increasing |
| SyncService.ChartSnapshot | src/lib/services/sync-service.ts:59-139 | the loop-built snapshot equals the specification snapshot: movement, valuation and today's timeline |
| SyncService.MarketData.UpsertChart | src/lib/services/sync-service.ts:142-161 | the table after the per-point upserts is the batch specification; the cache is untouched |
| SyncService.MarketData.PerformGlobalSync | src/lib/services/sync-service.ts:38-178 | the document returned and stored is the one built from the successful tickers; the table holds every ticker's upserts |
| SyncService.MarketData.GetCachedStocks | src/lib/services/sync-service.ts:184-216 | a stored cache is served as is; if stale it triggers a sync; a missing or corrupt cache is rebuilt by a sync first and that sync's stocks are returned |
| SyncService.MarketData.RecentRows | src/lib/services/sync-service.ts:230-238 | the table read returns the stock's rows since the cutoff in ascending time order |
| SyncService.MarketData.GetIntradayPrices | src/lib/services/sync-service.ts:221-252 | the cached series (or [] for an id the cache lacks); else the last 24 h from the table, each row labelled with its "HH:MM" time; else a sync and [] |
| SyncService.MarketData.CleanupOldIntradayData | src/lib/services/sync-service.ts:264-271 | the table becomes its rows from the last 24 hours; the cache is untouched |
| StockChips.RemoveCommas | src/app/api/stock-chips/route.ts:45 | the result has no comma and is no longer than the input |
| StockChips.DigitPrefix | src/app/api/stock-chips/route.ts:45 | the digits `parseInt` reads are a digit-only prefix of the text |
| StockChips.ParseInt | src/app/api/stock-chips/route.ts:45 | `parseInt(_, 10)`: leading white space, a sign, then the longest digit prefix; stated by `ParseIntRender`, `ParseIntUnsigned` and `ParseIntSigned` |
| StockChips.ParseIntRender | src/app/api/stock-chips/route.ts:45 | `parseInt(_, 10)` reads back any integer written in decimal, whatever non-digit text follows |
| StockChips.ParseIntUnsigned | src/app/api/stock-chips/route.ts:45 | text starting with a digit parses as the value of its leading digits |
| StockChips.ParseIntSigned | src/app/api/stock-chips/route.ts:45 | '-' followed by digits parses as the negated value |
| StockChips.ParseNumRender | src/app/api/stock-chips/route.ts:45 | `parseNum` reads back any integer written in decimal |
| StockChips.ParseNum | src/app/api/stock-chips/route.ts:45 | `parseNum`; stated by `ParseNumRender`, `ParseNumIgnoresCommas` and `UnparseableReadsZero` |
| StockChips.ParseNumIgnoresCommas | src/app/api/stock-chips/route.ts:45 | removing a comma anywhere does not change `parseNum`'s result |
| StockChips.RemoveCommasDropsComma | src/app/api/stock-chips/route.ts:45 | comma removal ignores an inserted comma |
| StockChips.UnparseableReadsZero | src/app/api/stock-chips/route.ts:45 | text with no digits (empty, "-", "N/A") reads as 0 |
| StockChips.Institutional | src/app/api/stock-chips/route.ts:52 | the net institutional flow in lots: the three flows' sum over 1000, rounded |
| StockChips.Government | src/app/api/stock-chips/route.ts:55 | the government estimate is −15 % of the foreign flow in lots, rounded, and opposite in sign to it |
| StockChips.GovernmentOpposesForeign | src/app/api/stock-chips/route.ts:54-55 | a larger foreign flow never gives a larger government estimate |
| StockChips.FindRow | src/app/api/stock-chips/route.ts:37 | a found row is one of the table's rows and starts with the stock id |
| StockChips.FindRowFirst | src/app/api/stock-chips/route.ts:37-39 | the row found is the first carrying the id; none is found exactly when no row carries it |
| StockChips.DayRecord | src/app/api/stock-chips/route.ts:30-65 | a non-OK status, a thrown error, a stat other than "OK" or missing data gives no entry |
| StockChips.DayRecordNeedsRow | src/app/api/stock-chips/route.ts:36-64 | a day yields an entry only from a row with the stock's id and all twelve columns, parsed from that row |
| StockChips.DayRecordOffset | src/app/api/stock-chips/route.ts:57-58 | a day's entry carries the day it was fetched for |
| StockChips.Weekdays | src/app/api/stock-chips/route.ts:9-15 | the weekdays among n days number at most n |
| StockChips.Outcome | src/app/api/stock-chips/route.ts:13-15 | Saturdays and Sundays contribute nothing |
| StockChips.Outcomes | src/app/api/stock-chips/route.ts:9 | one outcome per loop iteration |
| StockChips.Reversed | src/app/api/stock-chips/route.ts:77 | `reverse()`: element k of the result is element n−1−k of the input |
| StockChips.PushedLength | src/app/api/stock-chips/route.ts:9-15 | the window yields at most one entry per weekday |
| StockChips.Pushed | src/app/api/stock-chips/route.ts:9-69 | the entries the loop pushes, newest first; stated by `PushedContents` and `PushedLength` |
| StockChips.PushedContents | src/app/api/stock-chips/route.ts:9-69 | entries are exactly the successful weekdays of the window, newest first |
| StockChips.WeekdaysPerWeek | src/app/api/stock-chips/route.ts:9-15 | every seven consecutive days hold five weekdays |
| StockChips.WeekdayWithinWeek | src/app/api/stock-chips/route.ts:10-14 | the weekday i days back is today's weekday minus i, modulo 7 |
| StockChips.FirstWeek | src/app/api/stock-chips/route.ts:9-15 | the first seven days hold five weekdays |
| StockChips.DefaultWindowBound | src/app/api/stock-chips/route.ts:4 | the default 15-day window yields at most 11 entries |
| StockChips.ReadDay | src/app/api/stock-chips/route.ts:30-65 | one iteration's body computes the day's entry as specified |
| StockChips.FetchChipData | src/app/api/stock-chips/route.ts:4-78 | the answer is the pushed entries reversed: oldest first, weekdays of the window only, at most one per weekday |
| StockChips.PushedStep | src/app/api/stock-chips/route.ts:57 | one more iteration appends that day's entry, if any |
| StockChips.ReversedOrder | src/app/api/stock-chips/route.ts:76-77 | reversing newest-first entries gives them oldest first, with the same members |
| StockChips.DaysParamDefaults | src/app/api/stock-chips/route.ts:84 | a missing or empty `days` means 15 |
| StockChips.DaysParamDecimal | src/app/api/stock-chips/route.ts:84 | a decimal `days` is read as written |
| StockChips.DaysParamNaN | src/app/api/stock-chips/route.ts:84 | a non-numeric `days` runs no iteration |
| StockChips.DaysParam | src/app/api/stock-chips/route.ts:84 | `parseInt(days \|\| "15")`; stated by `DaysParamDefaults`, `DaysParamDecimal` and `DaysParamNaN` |
| StockChips.Get | src/app/api/stock-chips/route.ts:80-96 | 400 exactly when the id is missing or empty; otherwise the chip history of the requested window |
| Realtime.Get | src/app/api/stock-prices/realtime/route.ts:3-39 | a non-OK status, a non-array body or a thrown error answers [] |
| Realtime.Whitelisted | src/app/api/stock-prices/realtime/route.ts:20-31 | the filter-and-map; stated by `WhitelistedContents` and `WhitelistedKeepsOrder` |
| Realtime.WhitelistedContents | src/app/api/stock-prices/realtime/route.ts:20-31 | every quote comes from a whitelisted row, and every whitelisted row is quoted |
| Realtime.WhitelistedKeepsOrder | src/app/api/stock-prices/realtime/route.ts:22-31 | the filter-and-map distributes over concatenation, so upstream order is kept |
| Realtime.ChangeDefaultsToZero | src/app/api/stock-prices/realtime/route.ts:24-31 | a NaN change reads as 0; the id and name are the row's code and name |
| Dashboard.Search | src/app/page.tsx:66 | `includes` is true exactly when the query occurs in the text |
| Dashboard.EmptyQueryMatches | src/app/page.tsx:66 | the empty query occurs in every text |
| Dashboard.Filtered | src/app/page.tsx:65-69 | a card is shown exactly when its name or id contains the query and its category passes the selector |
| Dashboard.FilteredKeepsOrder | src/app/page.tsx:65-69 | the filter keeps list order |
| Dashboard.EmptyQueryKeepsAll | src/app/page.tsx:65-69 | with no query and "all", every card is shown |
| Dashboard.FirstQuote | src/app/page.tsx:90 | `find`: a quote with the card's id, none exactly when no quote has it |
| Dashboard.FirstQuoteIsFirst | src/app/page.tsx:90 | the quote found is the first with that id |
| Dashboard.Merge | src/app/page.tsx:88-103 | a failed or non-array answer leaves the list as it was; a merge keeps the cards' order and each card's id, name, category, diff and percentile |
| Dashboard.MergeEffect | src/app/page.tsx:89-101 | a quoted card takes the first quote's price and change and reads as up iff the change ≥ 0; an unquoted card is unchanged |
| Dashboard.Toggle | src/app/page.tsx:215 | clicking the selected card clears the selection; clicking another selects it |
| Dashboard.ToggleTwice | src/app/page.tsx:215 | two clicks on the same card restore a selection of that card and otherwise leave none |
| Portfolio.FindBase | src/app/portfolio/page.tsx:32 | the reference stock with the holding's id, none exactly when no stock has it |
| Portfolio.Enrich | src/app/portfolio/page.tsx:31-56 | one holding's derived figures; stated by `EnrichFigures`, `ListedDividendEstimate` and `RowAgreesWithPage` |
| Portfolio.EnrichFigures | src/app/portfolio/page.tsx:31-56 | profit is value minus cost; a missing price values the holding at 0; an unlisted stock earns no dividend; the ROIs are taken over a positive cost |
| Portfolio.ListedDividendEstimate | src/app/portfolio/page.tsx:39-40 | a listed stock's holding is credited quantity × cash dividend, and quantity × stock dividend / 10 shares |
| Portfolio.Load | src/app/portfolio/page.tsx:23-70 | an array answer becomes the enriched holdings in order; a non-array answer empties the list; a thrown error keeps it |
| Portfolio.Summary | src/app/portfolio/page.tsx:108-117 | estimated return is profit plus dividends; the ROIs are in percent of a positive total cost, else 0 |
| Portfolio.TotalProfitIsValueMinusCost | src/app/portfolio/page.tsx:109-111 | summed profit equals summed value minus summed cost |
| Portfolio.LoadedTotals | src/app/portfolio/page.tsx:109-117 | for a freshly loaded list, the summary's profit is its value minus its cost |
| Portfolio.CompositionSound | src/app/portfolio/page.tsx:119-122 | every chart slice is positive and is some holding's slice |
| Portfolio.Composition | src/app/portfolio/page.tsx:119-122 | the chart's slices; stated by `CompositionSound`, `CompositionComplete`, `CompositionKeepsOrder` and `CompositionSumsToTotal` |
| Portfolio.CompositionComplete | src/app/portfolio/page.tsx:119-122 | every holding with positive value has its slice |
| Portfolio.SliceIsMarketValue | src/app/portfolio/page.tsx:119-122 | a slice is the holding's market value under its stock's name |
| Portfolio.CompositionKeepsOrder | src/app/portfolio/page.tsx:119-122 | slices follow holding order |
| Portfolio.CompositionSumsToTotal | src/app/portfolio/page.tsx:109-122 | without negative values the slices add up to the total value |
| Portfolio.UnpricedHoldings | src/app/portfolio/page.tsx:26-34 | holdings without a current price have value 0 and leave the chart empty |
| Portfolio.CompositionEmpty | src/app/portfolio/page.tsx:119-122 | without a positive value the chart has no slice |
| Portfolio.ListOf | src/components/portfolio/HoldingList.tsx:22-56 | the empty state exactly for an empty list; otherwise row i belongs to holding i, and each row's profit flag agrees with its value and cost |
| Portfolio.RowFigures | src/components/portfolio/HoldingList.tsx:50-56 | a row shows profit iff value ≥ cost; a missing price reads as 0; the ROI is in percent of a positive cost, else 0 |
| Portfolio.RowAgreesWithPage | src/components/portfolio/HoldingList.tsx:50-56 | a row's value, cost, profit and ROI equal the page's enriched figures |
| PortfolioApi.Trunc | src/app/api/portfolio/route.ts:43 | `parseInt` of a number written without an exponent (1e-6 ≤ \|x\| < 1e21, or 0) is its integer part, toward zero |
| PortfolioApi.PostUser | src/app/api/portfolio/route.ts:27 | the destructuring default covers only an absent userId: POST writes for the user GET reads exactly when the request does not name the empty user, and writes for "" exactly when it does |
| PortfolioApi.Upsert | src/app/api/portfolio/route.ts:33-51 | only the (user, stock) key is written; an existing holding keeps its id and takes the new cost and quantity; a new one gets the fresh id |
| PortfolioApi.RemoveId | src/app/api/portfolio/route.ts:69-71 | exactly the holdings without that id remain, unchanged |
| PortfolioApi.UpsertKeepsTable | src/app/api/portfolio/route.ts:33-51 | the upsert keeps one holding per key and distinct ids |
| PortfolioApi.UpsertIdempotent | src/app/api/portfolio/route.ts:33-51 | posting the same holding twice equals posting it once |
| PortfolioApi.DeleteUndoesCreate | src/app/api/portfolio/route.ts:33-71 | deleting a just-created holding restores the table |
| PortfolioApi.DeleteRemovesOne | src/app/api/portfolio/route.ts:60-71 | deleting a present id removes exactly one holding |
| PortfolioApi.EmptyUserIdNotListed | src/app/api/portfolio/route.ts:8-27 | a holding posted with userId "" is not the user GET lists for "" |
| PortfolioApi.PostedIsListed | src/app/api/portfolio/route.ts:8-51 | a holding posted without a userId, or with a non-empty one, is among the holdings GET lists for the same userId |
| PortfolioApi.HoldingTable.Get | src/app/api/portfolio/route.ts:4-22 | exactly the requested user's holdings |
| PortfolioApi.HoldingTable.Post | src/app/api/portfolio/route.ts:24-58 | 400 exactly when stockId is falsy or cost or quantity is absent, table unchanged; otherwise the upsert with the quantity truncated |
| PortfolioApi.HoldingTable.Delete | src/app/api/portfolio/route.ts:60-78 | 400 without an id; an error when no holding has it; otherwise exactly that holding is removed |
| TaxScenariosApi.SharesOf | src/app/api/tax/scenarios/route.ts:31 | the share count is floored, and a missing count is 0 |
| TaxScenariosApi.NewScenario | src/app/api/tax/scenarios/route.ts:26-39 | the stored row carries the body's fields, each missing number as 0, with the new id and creation time |
| TaxScenariosApi.EmptyBodyStoresZeros | src/app/api/tax/scenarios/route.ts:31-37 | a body without numbers stores zeros everywhere |
| TaxScenariosApi.OfUser | src/app/api/tax/scenarios/route.ts:9-10 | exactly the user's rows |
| TaxScenariosApi.WithoutId | src/app/api/tax/scenarios/route.ts:64-66 | the delete never adds rows |
| TaxScenariosApi.WithoutIdMembers | src/app/api/tax/scenarios/route.ts:64-66 | exactly the rows without that id remain |
| TaxScenariosApi.Listing | src/app/api/tax/scenarios/route.ts:9-12 | GET's list; stated by `ListingContents` |
| TaxScenariosApi.ListingContents | src/app/api/tax/scenarios/route.ts:9-12 | the listing is a permutation of the user's rows, newest first |
| TaxScenariosApi.PostedIsListed | src/app/api/tax/scenarios/route.ts:7-28 | a posted scenario is listed for its user |
| TaxScenariosApi.WithoutFreshId | src/app/api/tax/scenarios/route.ts:26-66 | deleting a just-created scenario restores the table |
| TaxScenariosApi.WithoutAbsent | src/app/api/tax/scenarios/route.ts:64-66 | deleting an id nobody has changes nothing |
| TaxScenariosApi.WithoutRemovesOne | src/app/api/tax/scenarios/route.ts:64-66 | with distinct ids, deleting a present id removes exactly one row |
| TaxScenariosApi.WithoutKeepsDistinct | src/app/api/tax/scenarios/route.ts:64-66 | deleting keeps the ids distinct |
| TaxScenariosApi.ScenarioTable.Get | src/app/api/tax/scenarios/route.ts:4-19 | exactly the user's scenarios, newest first |
| TaxScenariosApi.ScenarioTable.Post | src/app/api/tax/scenarios/route.ts:21-53 | exactly one new scenario is appended, and it is returned |
| TaxScenariosApi.ScenarioTable.Delete | src/app/api/tax/scenarios/route.ts:55-73 | 400 without an id; an error when no scenario has it; otherwise exactly that one is removed |
| TaxCalculator.WithLivePrices | src/app/tax/page.tsx:141-144 | only the price is filled in: the list keeps its order and each stock its id, name and dividend |
| TaxCalculator.Find | src/app/tax/page.tsx:146 | `find`: a stock with the id, none exactly when no stock has it |
| TaxCalculator.SelectStock | src/app/tax/page.tsx:146 | the selected id's stock, or the second stock when no stock has the id |
| TaxCalculator.UnknownSelectionFallsBack | src/app/tax/page.tsx:141-146 | an unknown id selects 富邦金 2881, priced 0 without a live price |
| TaxCalculator.SelectedLivePrice | src/app/tax/page.tsx:141-146 | selecting a listed stock gives that stock with its live price, or 0 when none was loaded |
| TaxCalculator.BaseIdsDistinct | src/app/tax/page.tsx:141-146 | no two listed stocks share an id |
| TaxCalculator.TotalDividend | src/app/tax/page.tsx:148 | `(shares \|\| 0) * (dividend \|\| 0)`; stated by `TotalDividendMissing` |
| TaxCalculator.NhiPremium | src/app/tax/page.tsx:149 | the premium; stated by `NhiPremiumCharged` and `NhiCliff` |
| TaxCalculator.TaxCredit | src/app/tax/page.tsx:150 | the credit; stated by `TaxCreditCapped` |
| TaxCalculator.NetDividend | src/app/tax/page.tsx:151 | the net dividend; stated by `NetDividendWithin` |
| TaxCalculator.DividendYield | src/app/tax/page.tsx:152 | the yield; stated by `DividendYieldRule` |
| TaxCalculator.NetReturnWithTax | src/app/tax/page.tsx:154-155 | the net return at a tax rate; stated by `Figures`, `ActiveBracketMatches` and `LowBracketGains` |
| TaxCalculator.TotalDividendMissing | src/app/tax/page.tsx:148 | a missing operand gives total 0; otherwise shares × dividend |
| TaxCalculator.NhiPremiumCharged | src/app/tax/page.tsx:149 | the premium is charged exactly from 20 000 on, at 2.11 % of the whole total |
| TaxCalculator.TaxCreditCapped | src/app/tax/page.tsx:150 | the credit is 8.5 % of the total up to the cap of 80 000 and never more |
| TaxCalculator.NetDividendWithin | src/app/tax/page.tsx:151 | the net dividend lies in [0, total], equal to total exactly when no premium is due |
| TaxCalculator.NhiCliff | src/app/tax/page.tsx:149-151 | the net dividend at 19 999 exceeds the net dividend at 20 000 |
| TaxCalculator.DividendYieldRule | src/app/tax/page.tsx:152 | the yield is 0 without a positive price, otherwise dividend over price in percent |
| TaxCalculator.Figures | src/app/tax/page.tsx:148-155 | the net return is the net dividend minus the income-tax burden plus the credit |
| TaxCalculator.BracketTable | src/app/tax/page.tsx:370-373 | one cell per marginal bracket |
| TaxCalculator.ActiveBracketMatches | src/app/tax/page.tsx:370-374 | the active bracket's cell equals the page's net return |
| TaxCalculator.CoverageReachesFull | src/app/tax/page.tsx:361-365 | with a positive burden, coverage reaches 100 % exactly when the credit covers the burden |
| TaxCalculator.CreditCoverage | src/app/tax/page.tsx:361-365 | the coverage ratio; stated by `CoverageReachesFull` |
| TaxCalculator.LowBracketGains | src/app/tax/page.tsx:150-155 | below the cap, at the 5 % bracket the credit exceeds the tax and the net return exceeds the net dividend |
| TaxCalculator.SaveBody | src/app/tax/page.tsx:81-107 | saving is refused exactly when the total dividend is 0; otherwise the shares are floored and the figures sent |
| TradingChart.ValidMembers | src/components/TradingChart.tsx:119 | exactly the entries with a string time are kept |
| TradingChart.Valid | src/components/TradingChart.tsx:119 | the filter; stated by `ValidMembers` |
| TradingChart.Dedup | src/components/TradingChart.tsx:133-135 | the de-duplication; stated by `DedupSound`, `DedupDistinct`, `DedupComplete` and `DedupKeepsFirst` |
| TradingChart.ChartData | src/components/TradingChart.tsx:117-136 | the series handed to the chart; stated by `ChartTimesIncrease`, `ChartPointsAreFirsts`, `ChartTimesComplete` and `FirstInputEntryWins` |
| TradingChart.DedupSound | src/components/TradingChart.tsx:133-135 | de-duplication keeps only points that are the first of their time |
| TradingChart.DedupDistinct | src/components/TradingChart.tsx:133-135 | at most one point per time survives |
| TradingChart.DedupComplete | src/components/TradingChart.tsx:133-135 | every time of the input keeps a point |
| TradingChart.DedupKeepsFirst | src/components/TradingChart.tsx:133-135 | a first occurrence survives |
| TradingChart.StrictWhenDistinct | src/components/TradingChart.tsx:136 | sorted with one element per key means strictly increasing |
| TradingChart.ChartTimesIncrease | src/components/TradingChart.tsx:117-136 | empty input sets nothing; otherwise times strictly increase, as the chart library requires |
| TradingChart.ChartPointsAreFirsts | src/components/TradingChart.tsx:120-135 | every charted point is the first candidate of its time in sorted order |
| TradingChart.ChartTimesComplete | src/components/TradingChart.tsx:119-136 | every entry with a string time has its time charted |
| TradingChart.FirstInputEntryWins | src/components/TradingChart.tsx:120-135 | without empty times, the point kept for a time is the first input entry with that time |
| TradingChart.EmptyTimeDisplacesNineOClock | src/components/TradingChart.tsx:120-124 | an empty time sorts as 00:00, charts at 09:00 and displaces a real 09:00 entry |
| Valuation.FromQuotes | src/app/valuation/page.tsx:43-47 | the page's stocks are the realtime route's items (src/app/api/stock-prices/realtime/route.ts:24-31) in order, with their ids, names and prices and no percentile |
| Valuation.HeatOf | src/app/valuation/page.tsx:12-20 | `getHeatmapColor`; stated by `HeatTones` and `HeatMonotone` |
| Valuation.HeatTones | src/app/valuation/page.tsx:12-20 | green below 40, slate in [40, 60), red from 60; an undefined percentile gets the deepest red |
| Valuation.HeatMonotone | src/app/valuation/page.tsx:12-20 | a higher percentile never gets a greener class |
| Valuation.LabelOf | src/app/valuation/page.tsx:22-28 | `getValuationLabel`; stated by `LabelBands` and `LabelMonotone` |
| Valuation.LabelBands | src/app/valuation/page.tsx:22-28 | each label covers exactly its band (15, 30, 70, 85); an undefined percentile reads as 極度高估 |
| Valuation.LabelMonotone | src/app/valuation/page.tsx:22-28 | a higher percentile never gets a cheaper label |
| Valuation.LoadedStocksLookOvervalued | src/app/valuation/page.tsx:12-47 | every stock loaded from the realtime route is drawn in the deepest red and labelled 極度高估 |
| Valuation.SortInPlace | src/app/valuation/page.tsx:112 | `stocks.sort`: a permutation in place; in key order when every stock has a key; unchanged when no comparison yields a number |
| Valuation.InsertLast | src/app/valuation/page.tsx:112 | one insertion step permutes only, extends the sorted prefix when every stock has a key, and moves nothing when the last two are not out of order |
| Valuation.SwapAdjacent | src/app/valuation/page.tsx:112 | a swap exchanges two neighbours and nothing else |
| Valuation.RenderGrid | src/app/valuation/page.tsx:112-125 | one cell per stock in array order, each with `getHeatmapColor` of its percentile; ascending by percentile when all are present; the loaded order, all deepest red, when none is |
| Valuation.RenderCards | src/app/valuation/page.tsx:138-161 | '---' exactly for an empty list; the least- and highest-percentile stocks when all percentiles are present; the first stock on both percentile cards when none is; always a highest-priced stock |
| Valuation.ShowFirst | src/app/valuation/page.tsx:140-161 | `stocks.sort(comparator)[0]`: a stock of the list, with the least key when all are keyed, and the first one when none is |
| Valuation.FirstIsLeast | src/app/valuation/page.tsx:140-161 | the first element of a sorted list has the least key |

## Left out

- Network requests are not modelled. The upstream chart API, the exchange's tables and
  the API routes' `fetch` calls become `fetch` parameters giving each outcome.
- HTTP response bodies and status codes are reduced to reply datatypes.
- JSON decoding is not modelled; decoded fields arrive as `Option` values.
- Prisma and the database engine are not modelled. The `dailyPrice`, holding and
  scenario tables are maps or sequences. prisma/schema.prisma is not part of this
  model, so the holding's foreign key to its stock is not modelled.
- The file system is reduced to an abstract cache-file value. `fs.existsSync`,
  directory creation, and a crash between the write's start and end are left out.
- Concurrency is left out. The background refresh and the un-awaited `Promise.all` of
  upserts run to completion at the point they are started. Interleavings with other
  requests are not modelled.
- The clock, `Intl.DateTimeFormat` and `Date` are left out. Each timestamp carries its
  Taipei date and "HH:MM" label, and `now` / `today` / the weekday are parameters.
- The chip answer's month/day label (src/app/api/stock-chips/route.ts line 58) is
  replaced by the day's offset, the `daysBack` field of `StockChips.ChipDay`.
- IEEE-754 floating point is left out: prices and amounts are reals.
- StockChips.Government: `-foreign * 0.15 / 1000` is computed exactly rather than in
  binary floating point.
- PbValuation.Hundredths: `toFixed(2)` is modelled as rounding half up on reals. Its
  binary-float artefacts are not modelled.
- Counts above 2^53 lose precision in JavaScript but are exact here (`BigInt` shares,
  `parseInt` of large numbers).
- StockChips.DaysParam: `parseInt` without a radix would read a "0x" prefix as
  hexadecimal. The model reads such a count in decimal, so a "0x…" count runs no
  iteration. White space other than the characters `StockChips.IsSpace` lists is not
  skipped.
- NaN inputs are not modelled, except where the code maps NaN to a default
  (`parseFloat(...) || 0`, `parseNum`). Missing numbers are `None`.
- PortfolioApi.Trunc: `parseInt` first converts its argument to a string. A number
  whose string has an exponent (|x| < 1e-6 or |x| ≥ 1e21) is read from that string,
  so 5e-7 gives 5 and 1e21 gives 1, where the model truncates the number itself. A
  string argument is outside the model too: `parseInt("1,000")` is 1. Likewise
  `parseFloat` of a string cost is taken as the number it spells.
- PortfolioApi.HoldingTable.Post: the quantity and cost arrive as numbers. A string
  quantity such as "1,000" (which `parseInt` reads as 1) and a string cost read by
  `parseFloat` are not modelled, and the quantity stored is `Trunc`'s, with the limits
  above.
- SyncService.Lookup: `data.stocks[stockId]` on a parsed object also finds inherited
  members such as "constructor" or "__proto__"; the model finds own keys only.
- SyncService.MarketData.GetIntradayPrices: for an id naming an inherited member, the
  source returns undefined (the member has no `data`), where the model returns [].
- Portfolio.Enrich: a null `quantity` or `avgCost` in an API row is not modelled.
- PortfolioApi.HoldingTable.Post and TaxScenariosApi.ScenarioTable.Post require that
  the generated id is unused. The database guarantees this and it is not modelled.
- Valuation.SortInPlace: `Array.prototype.sort` is stable, and this insertion sort is
  too. Stability is stated and proved only for `Common.SortBy`, the specification
  sort. When some percentiles are present and others missing, the comparator is
  inconsistent and the order `Array.prototype.sort` produces is implementation-defined;
  the model then promises only a permutation.
- Valuation.RenderGrid and Valuation.RenderCards model one render. Each render sorts
  the state array in place, so the next render starts from the order the price card
  left; that carry-over between renders is not modelled.
- A chart time string that is not "HH:MM" (it would give NaN positions) is not
  modelled; times are given already split into hours and minutes. An hour outside
  0-23 or a minute outside 0-59 is not modelled either: the source's sort key is then
  NaN (compared as equal) and `setHours` rolls over into the next hour or day, while
  `SortKey` and `ChartMinutes` read it as plain minutes.
- The following are left out:
  - rendering, styling and animation;
  - toasts;
  - the randomly generated sparkline and chip data of the dashboard (`generateData`);
  - the AI summary request of the dashboard;
  - the intraday route;
  - the cron route;
  - the scripts;
  - `src/lib/constants.ts`, except the dividend figures the portfolio page reads,
    which are a parameter.
