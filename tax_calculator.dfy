/** The dividend tax calculator (src/app/tax/page.tsx): total cash dividend, the
    supplementary health-insurance (NHI) premium charged from 20 000 on, the 8.5 %
    dividend tax credit capped at 80 000, the net return at a marginal tax rate,
    the per-bracket comparison table and the guard in front of saving a scenario.
    All amounts are reals; the page's display rounding is not modelled. */
module TaxCalculator {
  import opened Common

  const TaxRate := 0.085
  const TaxLimit := 80000.0
  const NhiRate := 0.0211
  const NhiThreshold := 20000.0

  /** The marginal income-tax brackets of the comparison table. */
  const Brackets: seq<real> := [0.05, 0.12, 0.2, 0.3, 0.4]

  datatype DividendStock = DividendStock(id: string, name: string, dividend: real)

  /** A listed stock with its live price (0 when the price feed has none). */
  datatype PricedStock = PricedStock(id: string, name: string, dividend: real, price: real)

  const StocksBase: seq<DividendStock> := [
    DividendStock("2880", "華南金", 1.2),
    DividendStock("2881", "富邦金", 3.0),
    DividendStock("2882", "國泰金", 2.0),
    DividendStock("2883", "凱基金", 1.0),
    DividendStock("2884", "玉山金", 1.5),
    DividendStock("2885", "元大金", 1.5),
    DividendStock("2886", "兆豐金", 1.8),
    DividendStock("2887", "台新金", 1.0),
    DividendStock("2889", "國票金", 0.7),
    DividendStock("2890", "永豐金", 1.2),
    DividendStock("2891", "中信金", 1.8),
    DividendStock("2892", "第一金", 1.1),
    DividendStock("5880", "合庫金", 1.1)
  ]

  /** `STOCKS_BASE.map(s => ({ ...s, price: livePrices[s.id] || 0 }))`: the list keeps
      its order and each stock its id, name and dividend; only the price is filled in. */
  function WithLivePrices(live: map<string, real>): (r: seq<PricedStock>)
    ensures |r| == |StocksBase|
    ensures forall i :: 0 <= i < |r| ==>
              r[i].id == StocksBase[i].id && r[i].name == StocksBase[i].name &&
              r[i].dividend == StocksBase[i].dividend
  {
    seq(|StocksBase|, i requires 0 <= i < |StocksBase| =>
      var s := StocksBase[i];
      PricedStock(s.id, s.name, s.dividend, if s.id in live then live[s.id] else 0.0))
  }

  /** `STOCKS.find(s => s.id === selectedId)`. */
  function Find(stocks: seq<PricedStock>, id: string): (r: Option<PricedStock>)
    ensures r.Some? ==> r.value in stocks && r.value.id == id
    ensures r.None? ==> forall s :: s in stocks ==> s.id != id
  {
    if |stocks| == 0 then None
    else if stocks[0].id == id then Some(stocks[0])
    else Find(stocks[1..], id)
  }

  /** `STOCKS.find(...) || STOCKS[1]`: an unknown id falls back to the second stock. */
  function SelectStock(stocks: seq<PricedStock>, id: string): (r: PricedStock)
    requires |stocks| > 1
    ensures r.id == id || (r == stocks[1] && forall s :: s in stocks ==> s.id != id)
    ensures r in stocks
  {
    Find(stocks, id).GetOr(stocks[1])
  }

  /** `(shares || 0) * (dividend || 0)`; `None` stands for a missing or NaN input. */
  function TotalDividend(shares: Option<real>, dividend: Option<real>): real {
    OrZero(shares) * OrZero(dividend)
  }

  function NhiPremium(total: real): real {
    if total >= NhiThreshold then total * NhiRate else 0.0
  }

  function TaxCredit(total: real): real {
    Min(total * TaxRate, TaxLimit)
  }

  function NetDividend(total: real): real {
    total - NhiPremium(total)
  }

  function DividendYield(dividend: real, price: real): real {
    if price > 0.0 then (dividend / price) * 100.0 else 0.0
  }

  /** Net return after income tax at `rate`, with the dividend credit added back. */
  function NetReturnWithTax(total: real, rate: real): real {
    NetDividend(total) - total * rate + TaxCredit(total)
  }

  /** The comparison table: for each bracket, burden and credit recomputed in place. */
  function BracketTable(total: real): (r: seq<real>)
    ensures |r| == |Brackets|
  {
    seq(|Brackets|, i requires 0 <= i < |Brackets| =>
      var burden := total * Brackets[i];
      var credit := Min(total * TaxRate, TaxLimit);
      NetDividend(total) - burden + credit)
  }

  /** The figures the page derives for the selected stock. */
  datatype TaxFigures = TaxFigures(
    totalDividend: real, nhiPremium: real, taxCredit: real, netDividend: real,
    dividendYield: real, incomeTaxBurden: real, netReturnWithTax: real)

  function Figures(stock: PricedStock, shares: Option<real>, userTaxRate: real): (f: TaxFigures)
    ensures f.netReturnWithTax == f.netDividend - f.incomeTaxBurden + f.taxCredit
  {
    var total := TotalDividend(shares, Some(stock.dividend));
    TaxFigures(total, NhiPremium(total), TaxCredit(total), NetDividend(total),
               DividendYield(stock.dividend, stock.price), total * userTaxRate,
               NetReturnWithTax(total, userTaxRate))
  }

  /** A missing operand makes the total dividend zero. */
  lemma TotalDividendMissing(shares: Option<real>, dividend: Option<real>)
    ensures shares.None? || dividend.None? ==> TotalDividend(shares, dividend) == 0.0
    ensures shares.Some? && dividend.Some? ==> TotalDividend(shares, dividend) == shares.value * dividend.value
  {
  }

  /** The NHI premium is charged exactly when the total reaches the threshold (inclusive),
      and then it is 2.11 % of the whole total. */
  lemma NhiPremiumCharged(total: real)
    requires total >= 0.0
    ensures NhiPremium(total) > 0.0 <==> total >= NhiThreshold
    ensures total >= NhiThreshold ==> NhiPremium(total) == total * 0.0211 >= 422.0
  {
  }

  /** The credit is 8.5 % of the total until it reaches the 80 000 cap, and never more. */
  lemma TaxCreditCapped(total: real)
    requires total >= 0.0
    ensures 0.0 <= TaxCredit(total) <= 80000.0
    ensures TaxCredit(total) == 80000.0 <==> total * 0.085 >= 80000.0
    ensures total * 0.085 < 80000.0 ==> TaxCredit(total) == total * 0.085
  {
  }

  /** For a non-negative total, the net dividend lies within [0, total], and equals the
      total exactly when no premium is due. */
  lemma NetDividendWithin(total: real)
    requires total >= 0.0
    ensures 0.0 <= NetDividend(total) <= total
    ensures NetDividend(total) == total <==> (total < NhiThreshold || total == 0.0)
  {
  }

  /** The premium applies to the whole amount once the threshold is reached, so the net
      dividend drops when the total crosses it. */
  lemma NhiCliff()
    ensures NetDividend(19999.0) > NetDividend(20000.0)
  {
  }

  /** The yield is zero without a positive price; otherwise it is dividend per price in percent. */
  lemma DividendYieldRule(dividend: real, price: real)
    ensures price <= 0.0 ==> DividendYield(dividend, price) == 0.0
    ensures price > 0.0 ==> DividendYield(dividend, price) * price == dividend * 100.0
  {
  }

  /** The comparison-table cell of the active bracket shows the page's net return. */
  lemma {:induction false} ActiveBracketMatches(stock: PricedStock, shares: Option<real>, i: int)
    requires 0 <= i < |Brackets|
    ensures BracketTable(Figures(stock, shares, Brackets[i]).totalDividend)[i]
            == Figures(stock, shares, Brackets[i]).netReturnWithTax
  {
    var f := Figures(stock, shares, Brackets[i]);
    assert f.taxCredit == Min(f.totalDividend * TaxRate, TaxLimit);
  }

  /** The strategy panel's coverage ratio: credit per burden in percent, with a zero
      burden read as 1. */
  function CreditCoverage(credit: real, burden: real): real {
    (credit / (if burden != 0.0 then burden else 1.0)) * 100.0
  }

  /** With a positive burden the coverage reaches 100 % exactly when the credit covers
      the burden. */
  lemma CoverageReachesFull(credit: real, burden: real)
    requires burden > 0.0
    ensures CreditCoverage(credit, burden) >= 100.0 <==> credit >= burden
  {
    assert CreditCoverage(credit, burden) * burden == credit * 100.0;
  }

  /** In the 5 % and 8.5 %-or-less situation the credit outweighs the tax: below the cap,
      a positive dividend taxed at 5 % yields a net return above the net dividend. */
  lemma LowBracketGains(total: real)
    requires 0.0 < total && total * 0.085 <= 80000.0
    ensures TaxCredit(total) > total * 0.05
    ensures NetReturnWithTax(total, 0.05) > NetDividend(total)
  {
  }

  /** The body POSTed when a scenario is saved. */
  datatype ScenarioBody = ScenarioBody(
    stockId: string, stockName: string, shares: int, price: real, dividend: real,
    totalDividend: real, netDividend: real, nhiPremium: real, taxCredit: real)

  /** `handleSave`: refused (None) when the total dividend is zero; otherwise the
      shares are floored and the derived figures sent as they are. */
  function SaveBody(selectedId: string, stock: PricedStock, shares: Option<real>, f: TaxFigures): (r: Option<ScenarioBody>)
    ensures r.None? <==> f.totalDividend == 0.0
    ensures r.Some? ==> r.value.shares as real <= OrZero(shares) < r.value.shares as real + 1.0
    ensures r.Some? ==> r.value.stockId == selectedId && r.value.totalDividend == f.totalDividend
  {
    if f.totalDividend == 0.0 then None
    else Some(ScenarioBody(selectedId, stock.name, Floor(OrZero(shares)), stock.price, stock.dividend,
                           f.totalDividend, f.netDividend, f.nhiPremium, f.taxCredit))
  }

  /** Selecting a listed stock gives that stock, with its live price, or 0 when no live
      price was loaded for it. */
  lemma SelectedLivePrice(live: map<string, real>, i: int)
    requires 0 <= i < |StocksBase|
    ensures var s := SelectStock(WithLivePrices(live), StocksBase[i].id);
            s.id == StocksBase[i].id && s.name == StocksBase[i].name && s.dividend == StocksBase[i].dividend
    ensures StocksBase[i].id in live ==> SelectStock(WithLivePrices(live), StocksBase[i].id).price == live[StocksBase[i].id]
    ensures StocksBase[i].id !in live ==> SelectStock(WithLivePrices(live), StocksBase[i].id).price == 0.0
  {
    var stocks := WithLivePrices(live);
    var s := SelectStock(stocks, StocksBase[i].id);
    var k :| 0 <= k < |stocks| && stocks[k] == s;
    BaseIdsDistinct();
    assert k == i;
  }

  /** The listed codes ascend, so no two listed stocks share an id. */
  lemma BaseIdsDistinct()
    ensures forall a, b :: 0 <= a < b < |StocksBase| ==> StocksBase[a].id != StocksBase[b].id
  {
    assert forall k :: 0 <= k < |StocksBase| - 1 ==> CodeValue(StocksBase[k].id) < CodeValue(StocksBase[k + 1].id);
    var ids := seq(|StocksBase|, i requires 0 <= i < |StocksBase| => StocksBase[i].id);
    CodesAscending(ids);
    forall a, b | 0 <= a < b < |StocksBase| ensures StocksBase[a].id != StocksBase[b].id {
      assert ids[a] == StocksBase[a].id && ids[b] == StocksBase[b].id;
    }
  }

  /** An id outside the list selects 富邦金 (2881), at price 0 when no live price exists. */
  lemma UnknownSelectionFallsBack(live: map<string, real>, id: string)
    requires forall i :: 0 <= i < |StocksBase| ==> StocksBase[i].id != id
    ensures SelectStock(WithLivePrices(live), id).id == "2881"
    ensures "2881" !in live ==> SelectStock(WithLivePrices(live), id).price == 0.0
  {
    var stocks := WithLivePrices(live);
    forall s | s in stocks ensures s.id != id {
      var i :| 0 <= i < |stocks| && stocks[i] == s;
    }
    assert stocks[1].id == StocksBase[1].id == "2881";
  }
}
