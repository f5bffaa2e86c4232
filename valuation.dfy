/** The P/B heat-map page (src/app/valuation/page.tsx): the two threshold
    classifiers over a percentile, the in-place ascending sort that orders the
    grid, and the three summary cards, each of which re-sorts the same state
    array in place and reads its first element. */
module Valuation {
  import opened Common
  import Realtime

  /** One stock as the page holds it. `pbPercentile` is `None` when the object has no
      such field, so that reading it gives undefined. */
  datatype Listed = Listed(id: string, name: string, price: real, pbPercentile: Option<real>)

  /** What the page holds after it loads `/api/stock-prices/realtime`: that route's
      items carry an id, a name and a price but no `pbPercentile`. */
  function FromQuotes(quotes: seq<Realtime.Quote>): (r: seq<Listed>)
    ensures |r| == |quotes|
    ensures forall k :: 0 <= k < |r| ==>
              r[k].id == quotes[k].id && r[k].name == quotes[k].name && r[k].price == quotes[k].price
    ensures forall x :: x in multiset(r) ==> x.pbPercentile.None?
  {
    seq(|quotes|, k requires 0 <= k < |quotes| => Listed(quotes[k].id, quotes[k].name, quotes[k].price, None))
  }

  /** `percentile < t`: an undefined percentile compares false. */
  predicate Below(p: Option<real>, t: real) {
    p.Some? && p.value < t
  }

  /** The seven heat-map classes, from deep green to deep red. */
  datatype Heat = EmeraldStrong | EmeraldMedium | EmeraldLight | Slate | RoseLight | RoseMedium | RoseStrong

  /** `getHeatmapColor`: splits at 10, 25, 40, 60, 75 and 90. */
  function HeatOf(p: Option<real>): Heat {
    if Below(p, 10.0) then EmeraldStrong
    else if Below(p, 25.0) then EmeraldMedium
    else if Below(p, 40.0) then EmeraldLight
    else if Below(p, 60.0) then Slate
    else if Below(p, 75.0) then RoseLight
    else if Below(p, 90.0) then RoseMedium
    else RoseStrong
  }

  predicate IsEmerald(h: Heat) {
    h == EmeraldStrong || h == EmeraldMedium || h == EmeraldLight
  }

  predicate IsRose(h: Heat) {
    h == RoseLight || h == RoseMedium || h == RoseStrong
  }

  function HeatRank(h: Heat): (r: nat)
    ensures r < 7
  {
    match h
    case EmeraldStrong => 0
    case EmeraldMedium => 1
    case EmeraldLight => 2
    case Slate => 3
    case RoseLight => 4
    case RoseMedium => 5
    case RoseStrong => 6
  }

  /** Below 40 is a green shade, 40 up to 60 the neutral slate, 60 and above a red
      shade; an undefined percentile fails every test and gets the deepest red. */
  lemma HeatTones(p: real)
    ensures IsEmerald(HeatOf(Some(p))) <==> p < 40.0
    ensures HeatOf(Some(p)) == Slate <==> 40.0 <= p < 60.0
    ensures IsRose(HeatOf(Some(p))) <==> p >= 60.0
    ensures HeatOf(None) == RoseStrong
  {
  }

  /** A higher percentile never gets a greener class. */
  lemma HeatMonotone(p1: real, p2: real)
    requires p1 <= p2
    ensures HeatRank(HeatOf(Some(p1))) <= HeatRank(HeatOf(Some(p2)))
  {
  }

  /** The five labels of `getValuationLabel`, cheapest first. */
  datatype Label = DeepValue | ValueZone | FairZone | SlightlyHot | DeepOvervalued

  /** `getValuationLabel`: splits at 15, 30, 70 and 85. */
  function LabelOf(p: Option<real>): Label {
    if Below(p, 15.0) then DeepValue
    else if Below(p, 30.0) then ValueZone
    else if Below(p, 70.0) then FairZone
    else if Below(p, 85.0) then SlightlyHot
    else DeepOvervalued
  }

  function LabelRank(l: Label): (r: nat)
    ensures r < 5
  {
    match l
    case DeepValue => 0
    case ValueZone => 1
    case FairZone => 2
    case SlightlyHot => 3
    case DeepOvervalued => 4
  }

  /** Each label covers exactly its band; an undefined percentile reads as the most
      overvalued. */
  lemma LabelBands(p: real)
    ensures LabelOf(Some(p)) == DeepValue <==> p < 15.0
    ensures LabelOf(Some(p)) == ValueZone <==> 15.0 <= p < 30.0
    ensures LabelOf(Some(p)) == FairZone <==> 30.0 <= p < 70.0
    ensures LabelOf(Some(p)) == SlightlyHot <==> 70.0 <= p < 85.0
    ensures LabelOf(Some(p)) == DeepOvervalued <==> 85.0 <= p
    ensures LabelOf(None) == DeepOvervalued
  {
  }

  /** A higher percentile never gets a cheaper label. */
  lemma LabelMonotone(p1: real, p2: real)
    requires p1 <= p2
    ensures LabelRank(LabelOf(Some(p1))) <= LabelRank(LabelOf(Some(p2)))
  {
  }

  /** As the page is fed: every stock loaded from the realtime route is drawn in the
      deepest red and labelled the most overvalued. */
  lemma LoadedStocksLookOvervalued(quotes: seq<Realtime.Quote>)
    ensures forall x :: x in FromQuotes(quotes) ==> HeatOf(x.pbPercentile) == RoseStrong
    ensures forall x :: x in FromQuotes(quotes) ==> LabelOf(x.pbPercentile) == DeepOvervalued
  {
    forall x | x in FromQuotes(quotes) ensures x.pbPercentile.None? {
      assert x in multiset(FromQuotes(quotes));
    }
  }

  /** The three comparators the page sorts with. */
  datatype Order = PercentileAscending | PercentileDescending | PriceDescending

  /** Whether the comparator yields a number for this stock: the percentile comparators
      give NaN for a stock without a percentile; the price is always there. */
  predicate Keyed(order: Order, s: Listed) {
    order.PriceDescending? || s.pbPercentile.Some?
  }

  /** The key each comparator orders by ascending (`b.x - a.x` sorts ascending on -x);
      it is meaningful only for a keyed stock. */
  function Key(order: Order, s: Listed): real {
    match order
    case PercentileAscending => s.pbPercentile.GetOr(0.0)
    case PercentileDescending => -s.pbPercentile.GetOr(0.0)
    case PriceDescending => -s.price
  }

  /** `comparator(x, y) > 0`: a NaN result counts as 0, so only two keyed stocks can be
      out of order. */
  predicate Greater(order: Order, x: Listed, y: Listed) {
    Keyed(order, x) && Keyed(order, y) && Key(order, x) > Key(order, y)
  }

  /** Every stock in the collection has a key, or none has. */
  predicate AllKeyed(order: Order, m: multiset<Listed>) {
    forall x :: x in m ==> Keyed(order, x)
  }

  predicate NoneKeyed(order: Order, m: multiset<Listed>) {
    forall x :: x in m ==> !Keyed(order, x)
  }

  predicate SortedBy(s: seq<Listed>, order: Order) {
    forall p, q :: 0 <= p < q < |s| ==> Key(order, s[p]) <= Key(order, s[q])
  }

  /** `stocks.sort(comparator)`: reorders the array in place. When every stock has a
      key the array ends in key order; when none has, every comparison reads as equal
      and the array keeps its order. */
  method SortInPlace(a: array<Listed>, order: Order)
    modifies a
    ensures multiset(a[..]) == old(multiset(a[..]))
    ensures AllKeyed(order, multiset(a[..])) ==> SortedBy(a[..], order)
    ensures NoneKeyed(order, old(multiset(a[..]))) ==> a[..] == old(a[..])
  {
    if a.Length == 0 {
      return;
    }
    var i := 1;
    while i < a.Length
      invariant 1 <= i <= a.Length
      invariant multiset(a[..]) == old(multiset(a[..]))
      invariant AllKeyed(order, multiset(a[..])) ==> SortedBy(a[..i], order)
      invariant NoneKeyed(order, old(multiset(a[..]))) ==> a[..] == old(a[..])
    {
      InsertLast(a, i, order);
      i := i + 1;
    }
    assert a[..i] == a[..];
  }

  /** One insertion step: moves a[i] left past every neighbour the comparator puts
      after it, so that, with every stock keyed, the sorted prefix a[..i] grows to
      a[..i+1]; when a[i-1] and a[i] are not out of order nothing moves. */
  method InsertLast(a: array<Listed>, i: int, order: Order)
    requires 0 < i < a.Length
    requires AllKeyed(order, multiset(a[..])) ==> SortedBy(a[..i], order)
    modifies a
    ensures multiset(a[..]) == old(multiset(a[..]))
    ensures AllKeyed(order, multiset(a[..])) ==> SortedBy(a[..i + 1], order)
    ensures !Greater(order, old(a[i - 1]), old(a[i])) ==> a[..] == old(a[..])
  {
    ghost var keyed := AllKeyed(order, multiset(a[..]));
    var j := i;
    while j > 0 && Greater(order, a[j - 1], a[j])
      invariant 0 <= j <= i
      invariant multiset(a[..]) == old(multiset(a[..]))
      invariant keyed ==> Inserting(a[..], j, i, order)
      invariant !Greater(order, old(a[i - 1]), old(a[i])) ==> j == i && a[..] == old(a[..])
    {
      ghost var before := a[..];
      SwapAdjacent(a, j);
      if keyed {
        InsertingStep(before, a[..], j, i, order);
      }
      j := j - 1;
    }
    if keyed {
      if j > 0 {
        assert a[..][j - 1] in multiset(a[..]) && a[..][j] in multiset(a[..]);
      }
      InsertingDone(a[..], j, i, order);
    }
  }

  /** The state of one insertion step with the moving element at j: every pair within
      a[..i+1] is in order except possibly the pairs that end at j. */
  predicate Inserting(s: seq<Listed>, j: int, i: int, order: Order)
    requires 0 <= j <= i < |s|
  {
    (forall p, q :: 0 <= p < q <= i && q != j ==> Key(order, s[p]) <= Key(order, s[q])) &&
    (forall p, q :: 0 <= p < j < q <= i ==> Key(order, s[p]) <= Key(order, s[q])) &&
    (forall q :: j < q <= i ==> Key(order, s[j]) <= Key(order, s[q]))
  }

  /** Swapping the moving element with a larger left neighbour keeps the step's state. */
  lemma InsertingStep(s: seq<Listed>, t: seq<Listed>, j: int, i: int, order: Order)
    requires 0 < j <= i < |s| == |t|
    requires Inserting(s, j, i, order) && Key(order, s[j - 1]) > Key(order, s[j])
    requires t == s[j - 1 := s[j]][j := s[j - 1]]
    ensures Inserting(t, j - 1, i, order)
  {
  }

  /** Once the moving element is at the front or after a key no larger, the prefix is
      sorted. */
  lemma InsertingDone(s: seq<Listed>, j: int, i: int, order: Order)
    requires 0 <= j <= i < |s|
    requires Inserting(s, j, i, order)
    requires j == 0 || Key(order, s[j - 1]) <= Key(order, s[j])
    ensures SortedBy(s[..i + 1], order)
  {
  }

  /** Exchanges a[j-1] and a[j]; nothing else moves. */
  method SwapAdjacent(a: array<Listed>, j: int)
    requires 0 < j < a.Length
    modifies a
    ensures a[..] == old(a[..])[j - 1 := old(a[j])][j := old(a[j - 1])]
    ensures multiset(a[..]) == old(multiset(a[..]))
  {
    a[j - 1], a[j] := a[j], a[j - 1];
  }

  /** The grid: the stocks, sorted by percentile, each with its heat class. With every
      percentile present the grid ascends by percentile; with none (the page as fed by
      the realtime route) it keeps the loaded order and every cell is deep red. */
  method RenderGrid(a: array<Listed>) returns (cells: seq<(Listed, Heat)>)
    modifies a
    ensures multiset(a[..]) == old(multiset(a[..]))
    ensures AllKeyed(PercentileAscending, multiset(a[..])) ==> SortedBy(a[..], PercentileAscending)
    ensures NoneKeyed(PercentileAscending, old(multiset(a[..]))) ==> a[..] == old(a[..])
    ensures |cells| == a.Length
    ensures forall k :: 0 <= k < |cells| ==> cells[k].0 == a[k]
    ensures forall k :: 0 <= k < |cells| ==> cells[k].1 == HeatOf(a[k].pbPercentile)
    ensures forall k :: 0 <= k < |cells| && a[k].pbPercentile.Some? ==>
              (IsEmerald(cells[k].1) <==> a[k].pbPercentile.value < 40.0)
    ensures forall k :: 0 <= k < |cells| && a[k].pbPercentile.None? ==> cells[k].1 == RoseStrong
  {
    SortInPlace(a, PercentileAscending);
    cells := seq(a.Length, k requires 0 <= k < a.Length reads a => (a[k], HeatOf(a[k].pbPercentile)));
  }

  /** The three summary cards; `None` is the '---' shown for an empty list. */
  datatype Cards = Cards(undervalued: Option<Listed>, overvalued: Option<Listed>, highestPrice: Option<Listed>)

  /** The cards in render order: each sorts the state array in place and shows its
      first element. With every percentile present the first card shows a
      lowest-percentile stock and the second a highest-percentile one; with none, both
      sorts leave the array as it is and both cards show its first stock. The third
      card always shows a highest-priced stock. */
  method RenderCards(a: array<Listed>) returns (c: Cards)
    modifies a
    ensures multiset(a[..]) == old(multiset(a[..]))
    ensures a.Length == 0 <==> c.undervalued.None?
    ensures a.Length == 0 <==> c.overvalued.None?
    ensures a.Length == 0 <==> c.highestPrice.None?
    ensures c.undervalued.Some? ==> c.undervalued.value in old(multiset(a[..]))
    ensures c.overvalued.Some? ==> c.overvalued.value in old(multiset(a[..]))
    ensures AllKeyed(PercentileAscending, old(multiset(a[..]))) && c.undervalued.Some? ==>
              forall s :: s in old(multiset(a[..])) ==> Key(PercentileAscending, c.undervalued.value) <= Key(PercentileAscending, s)
    ensures AllKeyed(PercentileAscending, old(multiset(a[..]))) && c.overvalued.Some? ==>
              forall s :: s in old(multiset(a[..])) ==> Key(PercentileAscending, c.overvalued.value) >= Key(PercentileAscending, s)
    ensures NoneKeyed(PercentileAscending, old(multiset(a[..]))) && a.Length > 0 ==>
              c.undervalued == Some(old(a[0])) && c.overvalued == Some(old(a[0]))
    ensures c.highestPrice.Some? ==> (c.highestPrice.value in old(multiset(a[..])) &&
              forall s :: s in old(multiset(a[..])) ==> c.highestPrice.value.price >= s.price)
  {
    if a.Length == 0 {
      return Cards(None, None, None);
    }
    var low := ShowFirst(a, PercentileAscending);
    var high := ShowFirst(a, PercentileDescending);
    var top := ShowFirst(a, PriceDescending);
    c := Cards(Some(low), Some(high), Some(top));
  }

  /** One card: `stocks.sort(comparator)[0]`. */
  method ShowFirst(a: array<Listed>, order: Order) returns (first: Listed)
    requires a.Length > 0
    modifies a
    ensures multiset(a[..]) == old(multiset(a[..]))
    ensures first in old(multiset(a[..]))
    ensures AllKeyed(order, old(multiset(a[..]))) ==>
              forall s :: s in old(multiset(a[..])) ==> Key(order, first) <= Key(order, s)
    ensures NoneKeyed(order, old(multiset(a[..]))) ==> a[..] == old(a[..]) && first == old(a[0])
  {
    SortInPlace(a, order);
    first := a[0];
    assert a[..][0] in multiset(a[..]);
    if AllKeyed(order, multiset(a[..])) {
      FirstIsLeast(a[..], order);
    }
  }

  /** The first element of a sorted non-empty sequence has the least key of all. */
  lemma FirstIsLeast(s: seq<Listed>, order: Order)
    requires |s| > 0 && SortedBy(s, order)
    ensures s[0] in multiset(s)
    ensures forall x :: x in multiset(s) ==> Key(order, s[0]) <= Key(order, x)
  {
    forall x | x in multiset(s) ensures Key(order, s[0]) <= Key(order, x) {
      var k :| 0 <= k < |s| && s[k] == x;
      if k > 0 {
        assert Key(order, s[0]) <= Key(order, s[k]);
      }
    }
  }
}
