/** The per-ticker normalisation performed inside the global market-data sync
    (src/lib/services/sync-service.ts): the previous-close fallback chain, the
    derived diff / change / isUp, and the filter that turns the upstream's two
    parallel arrays into today's intraday timeline.

    The upstream chart response is abstract: its `meta` block with possibly-missing
    fields, and per timestamp the Asia/Taipei calendar date and "HH:MM" label that
    `Intl.DateTimeFormat` would produce for it. */
module MarketQuote {
  import opened Common

  /** The `meta` block of one chart response. `None` stands for null/undefined. */
  datatype Meta = Meta(regularMarketPrice: real, previousClose: Option<real>, chartPreviousClose: Option<real>)

  /** One upstream timestamp, already converted to the Taipei calendar. */
  datatype Stamp = Stamp(epochSeconds: int, dateStr: string, time: string)

  /** A point of the intraday series shown to readers. The cached item also carries its
      Taipei date (`dateStr`); the filter keeps only items dated today, so that field
      always equals today's date and is not repeated here. */
  datatype Point = Point(time: string, value: real)

  /** Derived daily movement of a quote. */
  datatype Movement = Movement(diff: real, change: real, isUp: bool)

  /** JavaScript truthiness of a possibly-missing number (NaN is not modelled). */
  predicate Truthy(x: Option<real>) {
    x.Some? && x.value != 0.0
  }

  /** `meta.previousClose || meta.chartPreviousClose || currentPrice`: the first truthy
      member of the chain; the current price closes it whatever its value. */
  function PrevClose(m: Meta): (r: real)
    ensures Truthy(m.previousClose) ==> r == m.previousClose.value
    ensures !Truthy(m.previousClose) && Truthy(m.chartPreviousClose) ==> r == m.chartPreviousClose.value
    ensures !Truthy(m.previousClose) && !Truthy(m.chartPreviousClose) ==> r == m.regularMarketPrice
  {
    if Truthy(m.previousClose) then m.previousClose.value
    else if Truthy(m.chartPreviousClose) then m.chartPreviousClose.value
    else m.regularMarketPrice
  }

  /** diff, change (percent of the previous close, 0 when that is not positive) and isUp. */
  function Move(price: real, prev: real): (r: Movement)
    ensures r.diff + prev == price
    ensures prev > 0.0 ==> r.change * prev == r.diff * 100.0
    ensures prev <= 0.0 ==> r.change == 0.0
    ensures r.isUp <==> price >= prev
  {
    var diff := price - prev;
    Movement(diff, if prev > 0.0 then (diff / prev) * 100.0 else 0.0, diff >= 0.0)
  }

  /** The movement reported for a quote. */
  function Normalise(m: Meta): Movement {
    Move(m.regularMarketPrice, PrevClose(m))
  }

  /** With both previous-close fields missing or zero, the quote reads as flat and up. */
  lemma ZeroDiffFallback(m: Meta)
    requires !Truthy(m.previousClose) && !Truthy(m.chartPreviousClose)
    ensures Normalise(m) == Movement(0.0, 0.0, true)
  {
  }

  /** The change sign always agrees with isUp, whatever the fallback chose. */
  lemma ChangeSignMatchesIsUp(m: Meta)
    ensures PrevClose(m) > 0.0 ==> (Normalise(m).isUp <==> Normalise(m).change >= 0.0)
  {
    var prev := PrevClose(m);
    var r := Normalise(m);
    if prev > 0.0 {
      assert r.change * prev == r.diff * 100.0;
      if r.diff >= 0.0 {
        assert r.change * prev >= 0.0;
      } else {
        assert r.change * prev < 0.0;
      }
    }
  }

  /** Concrete reading: price 50 with previousClose missing and chartPreviousClose 48. */
  lemma ChartPreviousCloseExample()
    ensures Normalise(Meta(50.0, None, Some(48.0))) == Movement(2.0, 25.0 / 6.0, true)
  {
  }

  /** `quotes[i]`: an index beyond the closes array reads as undefined. */
  function QuoteAt(closes: seq<Option<real>>, i: int): Option<real> {
    if 0 <= i < |closes| then closes[i] else None
  }

  /** An index survives the timeline filter when `quotes[i] || null` is not null
      (so a zero price is dropped too) and its Taipei date is today. */
  predicate Kept(stamps: seq<Stamp>, closes: seq<Option<real>>, today: string, i: int) {
    0 <= i < |stamps| && Truthy(QuoteAt(closes, i)) && stamps[i].dateStr == today
  }

  function PointAt(stamps: seq<Stamp>, closes: seq<Option<real>>, i: int): Point
    requires 0 <= i < |stamps| && QuoteAt(closes, i).Some?
  {
    Point(stamps[i].time, QuoteAt(closes, i).value)
  }

  /** An index is kept exactly when it has a timestamp, its close lies inside the closes
      array and is present and non-zero, and its Taipei date is today: a timestamp past
      the end of a shorter closes array is dropped. */
  lemma KeptExactly(stamps: seq<Stamp>, closes: seq<Option<real>>, today: string, i: int)
    ensures Kept(stamps, closes, today, i) <==>
              0 <= i < |stamps| && i < |closes| && closes[i].Some? && closes[i].value != 0.0 &&
              stamps[i].dateStr == today
  {
  }

  /** The `timestamps.map(...).filter(...)` pipeline over the first n timestamps. */
  function TimelineUpTo(stamps: seq<Stamp>, closes: seq<Option<real>>, today: string, n: nat): seq<Point>
    requires n <= |stamps|
  {
    if n == 0 then []
    else
      TimelineUpTo(stamps, closes, today, n - 1)
      + (if Kept(stamps, closes, today, n - 1) then [PointAt(stamps, closes, n - 1)] else [])
  }

  /** Today's intraday timeline. */
  function Timeline(stamps: seq<Stamp>, closes: seq<Option<real>>, today: string): seq<Point> {
    TimelineUpTo(stamps, closes, today, |stamps|)
  }

  /** The kept indices below n, ascending: an independent description of the filter. */
  function KeptIndices(stamps: seq<Stamp>, closes: seq<Option<real>>, today: string, n: nat): (ix: seq<int>)
    requires n <= |stamps|
    ensures |ix| <= n
    ensures forall j :: 0 <= j < |ix| ==> 0 <= ix[j] < n && Kept(stamps, closes, today, ix[j])
    ensures forall j, k :: 0 <= j < k < |ix| ==> ix[j] < ix[k]
    ensures forall i :: 0 <= i < n && Kept(stamps, closes, today, i) ==> i in ix
  {
    if n == 0 then []
    else
      KeptIndices(stamps, closes, today, n - 1)
      + (if Kept(stamps, closes, today, n - 1) then [n - 1] else [])
  }

  /** The timeline is exactly the points of the kept indices, in input order: every
      point has a non-zero price and today's date, every index that qualifies is
      present, and the timeline is never longer than the timestamps. */
  lemma {:induction false} TimelineIsKeptPoints(stamps: seq<Stamp>, closes: seq<Option<real>>, today: string, n: nat)
    requires n <= |stamps|
    ensures var ix := KeptIndices(stamps, closes, today, n);
            var tl := TimelineUpTo(stamps, closes, today, n);
            |tl| == |ix| <= n &&
            forall j :: 0 <= j < |tl| ==> tl[j] == PointAt(stamps, closes, ix[j])
  {
    if n > 0 {
      TimelineIsKeptPoints(stamps, closes, today, n - 1);
    }
  }

  /** Every point of the timeline carries a truthy price stamped today, and every
      qualifying index contributes its point. */
  lemma TimelineContents(stamps: seq<Stamp>, closes: seq<Option<real>>, today: string)
    ensures |Timeline(stamps, closes, today)| <= |stamps|
    ensures forall p :: p in Timeline(stamps, closes, today) ==>
              exists i :: Kept(stamps, closes, today, i) && p == PointAt(stamps, closes, i)
    ensures forall i :: Kept(stamps, closes, today, i) ==> PointAt(stamps, closes, i) in Timeline(stamps, closes, today)
  {
    var n := |stamps|;
    var ix := KeptIndices(stamps, closes, today, n);
    var tl := Timeline(stamps, closes, today);
    TimelineIsKeptPoints(stamps, closes, today, n);
    forall p | p in tl
      ensures exists i :: Kept(stamps, closes, today, i) && p == PointAt(stamps, closes, i)
    {
      var j :| 0 <= j < |tl| && tl[j] == p;
      assert Kept(stamps, closes, today, ix[j]);
    }
    forall i | Kept(stamps, closes, today, i)
      ensures PointAt(stamps, closes, i) in tl
    {
      var j :| 0 <= j < |ix| && ix[j] == i;
      assert tl[j] == PointAt(stamps, closes, i);
    }
  }

  /** Concrete reading: yesterday's points and null prices never reach the timeline. */
  lemma YesterdayDropped()
    ensures Timeline([Stamp(1, "2026-10-14", "13:00"), Stamp(2, "2026-10-15", "09:00"), Stamp(3, "2026-10-15", "09:05")],
                     [Some(10.0), Some(11.0), None], "2026-10-15")
            == [Point("09:00", 11.0)]
  {
  }
}
