/** The price-to-book estimate computed for each ticker during the global sync
    (src/lib/services/sync-service.ts): a fixed per-ticker book value, the ratio
    rounded to two decimals, and a piecewise-linear "percentile" scale. The scale
    is a fixed calibration, not a statistical percentile over any history. */
module PbValuation {
  import opened Common

  datatype Valuation = Valuation(pbValue: real, pbPercentile: int)

  /** The neutral reading used when no estimate can be made. */
  const Neutral := Valuation(1.5, 50)

  /** The estimated book value per share used by the sync, per ticker id. */
  function BookValue(id: string): (r: Option<real>)
    ensures r.Some? ==> r.value > 0.0
  {
    match id
    case "2880" => Some(32.5)
    case "2881" => Some(31.2)
    case "2882" => Some(28.8)
    case "2883" => Some(18.5)
    case "2884" => Some(12.8)
    case "2885" => Some(15.2)
    case "2886" => Some(18.9)
    case "2887" => Some(14.6)
    case "2889" => Some(22.3)
    case "2890" => Some(19.7)
    case "2891" => Some(18.4)
    case "2892" => Some(11.5)
    case "5880" => Some(45.8)
    case _ => None
  }

  /** `Number(x.toFixed(2))`, taken as rounding to the nearest hundredth. */
  function Hundredths(x: real): (r: real)
    ensures (r * 100.0).Floor as real == r * 100.0
    ensures x - 0.005 < r <= x + 0.005
  {
    Round(x * 100.0) as real / 100.0
  }

  /** The percentile scale over the P/B ratio r: r < 1 maps to [0,30], [1,1.5) to
      [30,60], [1.5,2) to [60,85], and r >= 2 to [85,100], capped at 100. */
  function Percentile(r: real): int {
    if r < 1.0 then Round(r * 30.0)
    else if r < 1.5 then Round(30.0 + (r - 1.0) * 60.0)
    else if r < 2.0 then Round(60.0 + (r - 1.5) * 50.0)
    else if 100 <= Round(85.0 + (r - 2.0) * 15.0) then 100
    else Round(85.0 + (r - 2.0) * 15.0)
  }

  /** The valuation of one ticker at a price: neutral without a book value or a
      positive price, otherwise the rounded ratio and its percentile. */
  function Estimate(id: string, price: real): (v: Valuation)
    ensures BookValue(id).None? || price <= 0.0 ==> v == Neutral
    ensures BookValue(id).Some? && price > 0.0 ==>
              v.pbPercentile == Percentile(price / BookValue(id).value) &&
              price / BookValue(id).value - 0.005 < v.pbValue <= price / BookValue(id).value + 0.005
    ensures (v.pbValue * 100.0).Floor as real == v.pbValue * 100.0
  {
    var bv := BookValue(id);
    if bv.Some? && price > 0.0 then
      var ratio := price / bv.value;
      Valuation(Hundredths(ratio), Percentile(ratio))
    else Neutral
  }

  /** Each band of the scale lands in the range its comment promises, and the whole
      scale stays within [0, 100] for a non-negative ratio. */
  lemma PercentileBands(r: real)
    requires r >= 0.0
    ensures 0 <= Percentile(r) <= 100
    ensures r < 1.0 ==> 0 <= Percentile(r) <= 30
    ensures 1.0 <= r < 1.5 ==> 30 <= Percentile(r) <= 60
    ensures 1.5 <= r < 2.0 ==> 60 <= Percentile(r) <= 85
    ensures 2.0 <= r ==> 85 <= Percentile(r) <= 100
  {
    if r < 1.0 {
      RoundWithin(r * 30.0, 0, 30);
    } else if r < 1.5 {
      RoundWithin(30.0 + (r - 1.0) * 60.0, 30, 60);
    } else if r < 2.0 {
      RoundWithin(60.0 + (r - 1.5) * 50.0, 60, 85);
    } else {
      RoundMonotone(85.0, 85.0 + (r - 2.0) * 15.0);
      RoundOfInt(85);
    }
  }

  /** The breakpoints of the scale: 1 -> 30, 1.5 -> 60, 2 -> 85, and 100 from 3 on. */
  lemma PercentileBreakpoints(r: real)
    ensures Percentile(1.0) == 30 && Percentile(1.5) == 60 && Percentile(2.0) == 85
    ensures r >= 3.0 ==> Percentile(r) == 100
  {
    RoundOfInt(30);
    RoundOfInt(60);
    RoundOfInt(85);
    if r >= 3.0 {
      RoundMonotone(100.0, 85.0 + (r - 2.0) * 15.0);
      RoundOfInt(100);
    }
  }

  /** The scale is non-decreasing: the pieces rise and meet at 30, 60 and 85. */
  lemma PercentileMonotone(r1: real, r2: real)
    requires r1 <= r2
    ensures Percentile(r1) <= Percentile(r2)
  {
    if r1 < 1.0 && r2 < 1.0 {
      RoundMonotone(r1 * 30.0, r2 * 30.0);
    } else if r1 < 1.0 {
      RoundMonotone(r1 * 30.0, 30.0);
      RoundOfInt(30);
      PercentileFloor(r2, 1.0, 30);
    } else if r1 < 1.5 && r2 < 1.5 {
      RoundMonotone(30.0 + (r1 - 1.0) * 60.0, 30.0 + (r2 - 1.0) * 60.0);
    } else if r1 < 1.5 {
      RoundMonotone(30.0 + (r1 - 1.0) * 60.0, 60.0);
      RoundOfInt(60);
      PercentileFloor(r2, 1.5, 60);
    } else if r1 < 2.0 && r2 < 2.0 {
      RoundMonotone(60.0 + (r1 - 1.5) * 50.0, 60.0 + (r2 - 1.5) * 50.0);
    } else if r1 < 2.0 {
      RoundMonotone(60.0 + (r1 - 1.5) * 50.0, 85.0);
      RoundOfInt(85);
      PercentileFloor(r2, 2.0, 85);
    } else {
      RoundMonotone(85.0 + (r1 - 2.0) * 15.0, 85.0 + (r2 - 2.0) * 15.0);
    }
  }

  /** From each breakpoint on, the scale is at least the breakpoint's value. */
  lemma PercentileFloor(r: real, at: real, p: int)
    requires (at, p) == (1.0, 30) || (at, p) == (1.5, 60) || (at, p) == (2.0, 85)
    requires r >= at
    ensures Percentile(r) >= p
  {
    if r < 1.5 {
      RoundMonotone(30.0, 30.0 + (r - 1.0) * 60.0);
      RoundOfInt(30);
    } else if r < 2.0 {
      RoundMonotone(60.0, 60.0 + (r - 1.5) * 50.0);
      RoundOfInt(60);
    } else {
      RoundMonotone(85.0, 85.0 + (r - 2.0) * 15.0);
      RoundOfInt(85);
    }
  }

  /** For a fixed book value, raising a positive price never lowers the percentile. */
  lemma EstimateMonotoneInPrice(id: string, p1: real, p2: real)
    requires BookValue(id).Some?
    requires 0.0 < p1 <= p2
    ensures Estimate(id, p1).pbPercentile <= Estimate(id, p2).pbPercentile
  {
    var bv := BookValue(id).value;
    assert p1 / bv <= p2 / bv by {
      assert p2 / bv - p1 / bv == (p2 - p1) / bv;
    }
    PercentileMonotone(p1 / bv, p2 / bv);
  }

  /** Every estimate is a percentile in [0, 100]. */
  lemma EstimateInRange(id: string, price: real)
    ensures 0 <= Estimate(id, price).pbPercentile <= 100
  {
    var bv := BookValue(id);
    if bv.Some? && price > 0.0 {
      assert price / bv.value > 0.0;
      PercentileBands(price / bv.value);
    }
  }
}
