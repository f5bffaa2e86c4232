/** The portfolio page (src/app/portfolio/page.tsx) and its holding table
    (src/components/portfolio/HoldingList.tsx): per-holding market value, cost
    basis, profit, estimated dividends and return ratios; the portfolio totals;
    the asset-composition slices; and the per-row figures of the table.

    The dividend reference list (`FHC_STOCKS` of the constants file) is a parameter.
    `avgCost` is always present on a stored holding, so the page's `|| 0` guard on
    it changes nothing here; `currentPrice` may be missing. */
module Portfolio {
  import opened Common

  /** One holding as the portfolio API returns it, with its stock's name. */
  datatype Holding = Holding(id: string, stockId: string, name: string, avgCost: real, quantity: real,
                             currentPrice: Option<real>)

  /** The dividend figures of one reference stock. */
  datatype DividendBase = DividendBase(id: string, cashDividend: real, stockDividend: real)

  /** A holding with the figures the page derives for it. */
  datatype Enriched = Enriched(
    holding: Holding, marketValue: real, costBasis: real, unrealizedProfit: real, unrealizedRoi: real,
    estCashDividend: real, estStockDividendShares: real, totalReturn: real, totalReturnRoi: real)

  /** `FHC_STOCKS.find(s => s.id === stockId)`. */
  function FindBase(bases: seq<DividendBase>, stockId: string): (r: Option<DividendBase>)
    ensures r.None? <==> forall b :: b in bases ==> b.id != stockId
    ensures r.Some? ==> r.value in bases && r.value.id == stockId
  {
    if |bases| == 0 then None
    else if bases[0].id == stockId then Some(bases[0])
    else
      assert forall b :: b in bases <==> b == bases[0] || b in bases[1..];
      FindBase(bases[1..], stockId)
  }

  /** `x > 0 ? (part / x) * 100 : 0`. */
  function Ratio(part: real, basis: real): real {
    if basis > 0.0 then (part / basis) * 100.0 else 0.0
  }

  /** The enrichment of one holding. */
  function Enrich(h: Holding, bases: seq<DividendBase>): Enriched {
    var marketValue := OrZero(h.currentPrice) * h.quantity;
    var costBasis := h.avgCost * h.quantity;
    var profit := marketValue - costBasis;
    var base := FindBase(bases, h.stockId);
    var cash := if base.Some? then h.quantity * base.value.cashDividend else 0.0;
    var stockShares := if base.Some? then h.quantity * base.value.stockDividend / 10.0 else 0.0;
    var totalReturn := profit + cash;
    Enriched(h, marketValue, costBasis, profit, Ratio(profit, costBasis), cash, stockShares,
             totalReturn, Ratio(totalReturn, costBasis))
  }

  /** The identities an enriched holding satisfies. */
  predicate Consistent(e: Enriched) {
    e.unrealizedProfit == e.marketValue - e.costBasis &&
    e.totalReturn == e.unrealizedProfit + e.estCashDividend &&
    e.marketValue == OrZero(e.holding.currentPrice) * e.holding.quantity
  }

  /** What enrichment promises: profit is value minus cost, a missing price counts as 0,
      a stock outside the reference list earns no
      dividend estimate, and both ratios are
      0 without a positive cost basis and a percentage of it otherwise. */
  lemma EnrichFigures(h: Holding, bases: seq<DividendBase>)
    ensures var e := Enrich(h, bases);
            Consistent(e) && e.holding == h && e.costBasis == h.avgCost * h.quantity
    ensures h.currentPrice.None? ==> Enrich(h, bases).marketValue == 0.0
    ensures (forall b :: b in bases ==> b.id != h.stockId) ==>
              Enrich(h, bases).estCashDividend == 0.0 && Enrich(h, bases).estStockDividendShares == 0.0
    ensures var e := Enrich(h, bases);
            (e.costBasis <= 0.0 ==> e.unrealizedRoi == 0.0 && e.totalReturnRoi == 0.0) &&
            (e.costBasis > 0.0 ==> e.unrealizedRoi * e.costBasis == e.unrealizedProfit * 100.0 &&
                                   e.totalReturnRoi * e.costBasis == e.totalReturn * 100.0)
  {
  }

  /** A holding of a listed stock is credited the quantity times that stock's cash
      dividend, and the quantity times a tenth of its stock dividend in shares. */
  lemma ListedDividendEstimate(h: Holding, bases: seq<DividendBase>, b: DividendBase)
    requires FindBase(bases, h.stockId) == Some(b)
    ensures Enrich(h, bases).estCashDividend == h.quantity * b.cashDividend
    ensures Enrich(h, bases).estStockDividendShares == h.quantity * b.stockDividend / 10.0
  {
  }

  /** What the fetch returned. */
  datatype Response = Threw | NotArray | Holdings(items: seq<Holding>)

  /** `fetchPortfolio`'s effect on the list: a non-array answer empties it, a thrown
      request leaves it as it was, an array is enriched item by item. */
  function Load(prev: seq<Enriched>, resp: Response, bases: seq<DividendBase>): (r: seq<Enriched>)
    ensures resp.Threw? ==> r == prev
    ensures resp.NotArray? ==> r == []
    ensures resp.Holdings? ==> (|r| == |resp.items| &&
              forall i :: 0 <= i < |r| ==> r[i] == Enrich(resp.items[i], bases))
  {
    match resp
    case Threw => prev
    case NotArray => []
    case Holdings(items) => seq(|items|, i requires 0 <= i < |items| => Enrich(items[i], bases))
  }

  function TotalValue(hs: seq<Enriched>): real {
    if |hs| == 0 then 0.0 else hs[0].marketValue + TotalValue(hs[1..])
  }

  function TotalCost(hs: seq<Enriched>): real {
    if |hs| == 0 then 0.0 else hs[0].costBasis + TotalCost(hs[1..])
  }

  function TotalProfit(hs: seq<Enriched>): real {
    if |hs| == 0 then 0.0 else hs[0].unrealizedProfit + TotalProfit(hs[1..])
  }

  function TotalEstDividend(hs: seq<Enriched>): real {
    if |hs| == 0 then 0.0 else hs[0].estCashDividend + TotalEstDividend(hs[1..])
  }

  /** The summary figures of the page. */
  datatype Totals = Totals(totalValue: real, totalCost: real, totalProfit: real, totalRoi: real,
                           totalEstDividend: real, totalEstReturn: real, totalReturnRoi: real)

  function Summary(hs: seq<Enriched>): (t: Totals)
    ensures t.totalEstReturn == t.totalProfit + t.totalEstDividend
    ensures t.totalCost <= 0.0 ==> t.totalRoi == 0.0 && t.totalReturnRoi == 0.0
    ensures t.totalCost > 0.0 ==> t.totalRoi * t.totalCost == t.totalProfit * 100.0 &&
                                  t.totalReturnRoi * t.totalCost == t.totalEstReturn * 100.0
  {
    var value := TotalValue(hs);
    var cost := TotalCost(hs);
    var profit := TotalProfit(hs);
    var dividend := TotalEstDividend(hs);
    Totals(value, cost, profit, Ratio(profit, cost), dividend, profit + dividend, Ratio(profit + dividend, cost))
  }

  /** The summed profit is the summed value minus the summed cost. */
  lemma {:induction false} TotalProfitIsValueMinusCost(hs: seq<Enriched>)
    requires forall e :: e in hs ==> Consistent(e)
    ensures TotalProfit(hs) == TotalValue(hs) - TotalCost(hs)
  {
    if |hs| > 0 {
      assert hs[0] in hs;
      assert forall e :: e in hs[1..] ==> e in hs;
      TotalProfitIsValueMinusCost(hs[1..]);
    }
  }

  /** The totals of a loaded list are sums over its holdings: value minus cost is profit. */
  lemma LoadedTotals(resp: Response, bases: seq<DividendBase>)
    requires resp.Holdings?
    ensures var t := Summary(Load([], resp, bases));
            t.totalProfit == t.totalValue - t.totalCost
  {
    var hs := Load([], resp, bases);
    forall e | e in hs ensures Consistent(e) {
      var i :| 0 <= i < |hs| && hs[i] == e;
      EnrichFigures(resp.items[i], bases);
    }
    TotalProfitIsValueMinusCost(hs);
  }

  /** A slice of the asset-composition chart. */
  datatype Slice = Slice(name: string, value: real)

  /** `holdings.map(h => ({ name, value: (currentPrice || 0) * quantity })).filter(d => d.value > 0)`. */
  function Composition(hs: seq<Enriched>): seq<Slice> {
    if |hs| == 0 then []
    else (if SliceOf(hs[0]).value > 0.0 then [SliceOf(hs[0])] else []) + Composition(hs[1..])
  }

  function SliceOf(e: Enriched): Slice {
    Slice(e.holding.name, OrZero(e.holding.currentPrice) * e.holding.quantity)
  }

  function SliceTotal(ss: seq<Slice>): real {
    if |ss| == 0 then 0.0 else ss[0].value + SliceTotal(ss[1..])
  }

  /** Every slice is positive and is the slice of one of the holdings, and the chart
      never has more slices than holdings. */
  lemma {:induction false} CompositionSound(hs: seq<Enriched>)
    ensures |Composition(hs)| <= |hs|
    ensures forall s :: s in Composition(hs) ==> s.value > 0.0 && exists e :: e in hs && s == SliceOf(e)
  {
    if |hs| > 0 {
      CompositionSound(hs[1..]);
      forall s | s in Composition(hs)
        ensures s.value > 0.0 && exists e :: e in hs && s == SliceOf(e)
      {
        if s in Composition(hs[1..]) {
          var e :| e in hs[1..] && s == SliceOf(e);
          assert e in hs;
        } else {
          assert hs[0] in hs;
        }
      }
    }
  }

  /** No holding with a positive value is missing from the chart. */
  lemma {:induction false} CompositionComplete(hs: seq<Enriched>)
    ensures forall e :: e in hs && SliceOf(e).value > 0.0 ==> SliceOf(e) in Composition(hs)
  {
    if |hs| > 0 {
      CompositionComplete(hs[1..]);
      forall e | e in hs && SliceOf(e).value > 0.0
        ensures SliceOf(e) in Composition(hs)
      {
        if e != hs[0] {
          assert e in hs[1..];
        }
      }
    }
  }

  /** A slice's value is the holding's market value, under its stock's name. */
  lemma SliceIsMarketValue(e: Enriched)
    requires Consistent(e)
    ensures SliceOf(e) == Slice(e.holding.name, e.marketValue)
  {
  }

  /** Composition keeps holding order: it distributes over concatenation. */
  lemma {:induction false} CompositionKeepsOrder(a: seq<Enriched>, b: seq<Enriched>)
    ensures Composition(a + b) == Composition(a) + Composition(b)
  {
    if |a| > 0 {
      assert (a + b)[0] == a[0];
      assert (a + b)[1..] == a[1..] + b;
      CompositionKeepsOrder(a[1..], b);
    } else {
      assert a + b == b;
    }
  }

  /** With no negative market value, the chart's slices add up to the total value. */
  lemma {:induction false} CompositionSumsToTotal(hs: seq<Enriched>)
    requires forall e :: e in hs ==> Consistent(e) && e.marketValue >= 0.0
    ensures SliceTotal(Composition(hs)) == TotalValue(hs)
  {
    if |hs| > 0 {
      assert hs[0] in hs;
      assert forall e :: e in hs[1..] ==> e in hs;
      CompositionSumsToTotal(hs[1..]);
      var s := SliceOf(hs[0]);
      if s.value > 0.0 {
        assert Composition(hs) == [s] + Composition(hs[1..]);
        assert ([s] + Composition(hs[1..]))[1..] == Composition(hs[1..]);
      } else {
        assert Composition(hs) == Composition(hs[1..]);
      }
    }
  }

  /** The portfolio API attaches no current price, so every holding it returns reads
      at market value 0, with the whole cost basis as loss, and the chart is empty. */
  lemma UnpricedHoldings(items: seq<Holding>, bases: seq<DividendBase>)
    requires forall h :: h in items ==> h.currentPrice.None?
    ensures var hs := Load([], Holdings(items), bases);
            Composition(hs) == [] &&
            forall e :: e in hs ==> e.marketValue == 0.0 && e.unrealizedProfit == -e.costBasis
  {
    var hs := Load([], Holdings(items), bases);
    forall e | e in hs ensures Consistent(e) && e.marketValue == 0.0 && e.unrealizedProfit == -e.costBasis {
      var i :| 0 <= i < |hs| && hs[i] == e;
      assert items[i] in items;
    }
    forall e | e in hs ensures SliceOf(e).value <= 0.0 {
      SliceIsMarketValue(e);
    }
    CompositionEmpty(hs);
  }

  /** Without a positive market value the chart has no slice. */
  lemma {:induction false} CompositionEmpty(hs: seq<Enriched>)
    requires forall e :: e in hs ==> SliceOf(e).value <= 0.0
    ensures Composition(hs) == []
  {
    if |hs| > 0 {
      assert hs[0] in hs;
      assert forall e :: e in hs[1..] ==> e in hs;
      CompositionEmpty(hs[1..]);
    }
  }

  /** The figures of one table row. */
  datatype Row = Row(id: string, currentPrice: real, currentValue: real, costBasis: real, profit: real,
                     roi: real, isProfit: bool)

  /** `HoldingList`: the empty state for an empty list, otherwise one row per holding. */
  datatype ListView = EmptyState | Table(rows: seq<Row>)

  function RowOf(h: Holding): Row {
    var price := OrZero(h.currentPrice);
    var value := price * h.quantity;
    var cost := h.avgCost * h.quantity;
    var profit := value - cost;
    Row(h.id, price, value, cost, profit, Ratio(profit, cost), profit >= 0.0)
  }

  /** The list shows the empty state only when there is no holding; otherwise row i
      belongs to holding i, and each row's profit flag agrees with its figures. */
  function ListOf(holdings: seq<Holding>): (v: ListView)
    ensures v.EmptyState? <==> |holdings| == 0
    ensures v.Table? ==> |v.rows| == |holdings|
    ensures v.Table? ==> forall i :: 0 <= i < |holdings| ==>
              v.rows[i].id == holdings[i].id &&
              (v.rows[i].isProfit <==> v.rows[i].currentValue >= v.rows[i].costBasis)
  {
    if |holdings| == 0 then EmptyState
    else Table(seq(|holdings|, i requires 0 <= i < |holdings| => RowOf(holdings[i])))
  }

  /** A row shows profit iff its value covers its cost, a missing price reads as 0, and
      the ROI is 0 without a positive cost basis. */
  lemma RowFigures(h: Holding)
    ensures RowOf(h).isProfit <==> RowOf(h).currentValue >= RowOf(h).costBasis
    ensures h.currentPrice.None? ==> RowOf(h).currentPrice == 0.0 && RowOf(h).currentValue == 0.0
    ensures RowOf(h).costBasis <= 0.0 ==> RowOf(h).roi == 0.0
    ensures RowOf(h).costBasis > 0.0 ==> RowOf(h).roi * RowOf(h).costBasis == RowOf(h).profit * 100.0
  {
  }

  /** The table and the page agree: a row's value, cost, profit and ROI are the
      enriched holding's market value, cost basis, unrealized profit and ROI. */
  lemma RowAgreesWithPage(h: Holding, bases: seq<DividendBase>)
    ensures var e := Enrich(h, bases);
            var r := RowOf(h);
            r.currentValue == e.marketValue && r.costBasis == e.costBasis &&
            r.profit == e.unrealizedProfit && r.roi == e.unrealizedRoi
  {
  }
}
