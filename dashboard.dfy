/** The dashboard (src/app/page.tsx): the search-and-category filter over the stock
    list, the merge of realtime quotes into that list, and the card selection
    toggle. The randomly generated sparkline and chip data are not modelled. */
module Dashboard {
  import opened Common
  import SyncService
  import Realtime

  /** A stock card as the dashboard holds it. */
  datatype Card = Card(id: string, name: string, price: real, diff: real, change: real, isUp: bool,
                       category: SyncService.Category, pbValue: real, pbPercentile: real)

  /** The category selector: "all" or one category. */
  datatype CategoryFilter = All | Only(category: SyncService.Category)

  /** The needle occurs in the hay starting at position i. */
  predicate OccursAt(hay: string, needle: string, i: int) {
    0 <= i <= |hay| - |needle| && hay[i..i + |needle|] == needle
  }

  /** `hay.includes(needle)`: the needle occurs at some position of the hay. */
  ghost predicate Includes(hay: string, needle: string) {
    exists i :: OccursAt(hay, needle, i)
  }

  /** A computed substring search, checked against `Includes`. */
  function Search(hay: string, needle: string): (b: bool)
    ensures b <==> Includes(hay, needle)
    decreases |hay|
  {
    if needle <= hay then
      assert OccursAt(hay, needle, 0);
      true
    else if |hay| == 0 then false
    else
      SearchStep(hay, needle);
      Search(hay[1..], needle)
  }

  /** When the needle is not a prefix, it occurs in the hay iff it occurs in the tail. */
  lemma SearchStep(hay: string, needle: string)
    requires |hay| > 0 && !(needle <= hay)
    ensures Includes(hay, needle) <==> Includes(hay[1..], needle)
  {
    if Includes(hay, needle) {
      var i :| OccursAt(hay, needle, i);
      if i > 0 {
        assert hay[1..][i - 1..i - 1 + |needle|] == hay[i..i + |needle|];
        assert OccursAt(hay[1..], needle, i - 1);
      }
    }
    if Includes(hay[1..], needle) {
      var i :| OccursAt(hay[1..], needle, i);
      assert hay[1..][i..i + |needle|] == hay[i + 1..i + 1 + |needle|];
      assert OccursAt(hay, needle, i + 1);
    }
  }

  /** The empty query occurs in every string. */
  lemma EmptyQueryMatches(hay: string)
    ensures Search(hay, "")
  {
    assert hay[0..0] == "";
  }

  /** The filter's predicate for one card. */
  predicate Matches(c: Card, query: string, filter: CategoryFilter) {
    (Search(c.name, query) || Search(c.id, query)) && (filter.All? || c.category == filter.category)
  }

  /** `stocks.filter(...)`. */
  function Filtered(stocks: seq<Card>, query: string, filter: CategoryFilter): (r: seq<Card>)
    ensures |r| <= |stocks|
    ensures forall c :: c in r <==> c in stocks && Matches(c, query, filter)
  {
    if |stocks| == 0 then []
    else
      var rest := Filtered(stocks[1..], query, filter);
      assert forall c :: c in stocks <==> c == stocks[0] || c in stocks[1..];
      (if Matches(stocks[0], query, filter) then [stocks[0]] else []) + rest
  }

  /** The filter keeps cards in list order: it distributes over concatenation. */
  lemma {:induction false} FilteredKeepsOrder(a: seq<Card>, b: seq<Card>, query: string, filter: CategoryFilter)
    ensures Filtered(a + b, query, filter) == Filtered(a, query, filter) + Filtered(b, query, filter)
  {
    if |a| > 0 {
      assert (a + b)[1..] == a[1..] + b;
      FilteredKeepsOrder(a[1..], b, query, filter);
    } else {
      assert a + b == b;
    }
  }

  /** An empty query with the "all" filter keeps every card, in order. */
  lemma {:induction false} EmptyQueryKeepsAll(stocks: seq<Card>)
    ensures Filtered(stocks, "", All) == stocks
  {
    if |stocks| > 0 {
      EmptyQueryMatches(stocks[0].name);
      EmptyQueryKeepsAll(stocks[1..]);
    }
  }

  /** `realData.find(r => r.id === s.id)`: the first quote for the id. */
  function FirstQuote(live: seq<Realtime.Quote>, id: string): (r: Option<Realtime.Quote>)
    ensures r.None? <==> forall q :: q in live ==> q.id != id
    ensures r.Some? ==> r.value in live && r.value.id == id
  {
    if |live| == 0 then None
    else if live[0].id == id then Some(live[0])
    else
      assert forall q :: q in live <==> q == live[0] || q in live[1..];
      FirstQuote(live[1..], id)
  }

  /** The quote found is the one at the first index carrying the id. */
  lemma {:induction false} FirstQuoteIsFirst(live: seq<Realtime.Quote>, id: string, k: int)
    requires 0 <= k < |live| && live[k].id == id
    requires forall j :: 0 <= j < k ==> live[j].id != id
    ensures FirstQuote(live, id) == Some(live[k])
  {
    if k > 0 {
      FirstQuoteIsFirst(live[1..], id, k - 1);
    }
  }

  /** One card after the merge: a quoted card takes the quote's price and change,
      and reads as up exactly when the change is not negative. */
  function MergeOne(c: Card, live: seq<Realtime.Quote>): Card {
    match FirstQuote(live, c.id)
    case None => c
    case Some(q) => c.(price := q.price, change := q.change, isUp := q.change >= 0.0)
  }

  /** The realtime merge; `None` stands for a non-array answer or a failed request,
      which leaves the list as it was. A merge never reorders the cards and touches
      only the price, change and direction of each. */
  function Merge(stocks: seq<Card>, live: Option<seq<Realtime.Quote>>): (r: seq<Card>)
    ensures |r| == |stocks|
    ensures live.None? ==> r == stocks
    ensures forall i :: 0 <= i < |r| ==>
              r[i].id == stocks[i].id && r[i].name == stocks[i].name && r[i].category == stocks[i].category &&
              r[i].diff == stocks[i].diff && r[i].pbPercentile == stocks[i].pbPercentile
  {
    if live.None? then stocks
    else seq(|stocks|, i requires 0 <= i < |stocks| => MergeOne(stocks[i], live.value))
  }

  /** What the merge does to one card: a card without a quote is unchanged; a quoted
      card shows the first quote's figures. */
  lemma MergeEffect(stocks: seq<Card>, live: seq<Realtime.Quote>, i: int)
    requires 0 <= i < |stocks|
    ensures (forall q :: q in live ==> q.id != stocks[i].id) ==> Merge(stocks, Some(live))[i] == stocks[i]
    ensures forall k :: 0 <= k < |live| && live[k].id == stocks[i].id &&
                        (forall j :: 0 <= j < k ==> live[j].id != stocks[i].id) ==>
              var c := Merge(stocks, Some(live))[i];
              c.price == live[k].price && c.change == live[k].change && (c.isUp <==> live[k].change >= 0.0)
  {
    forall k | 0 <= k < |live| && live[k].id == stocks[i].id &&
               (forall j :: 0 <= j < k ==> live[j].id != stocks[i].id)
      ensures FirstQuote(live, stocks[i].id) == Some(live[k])
    {
      FirstQuoteIsFirst(live, stocks[i].id, k);
    }
  }

  /** `setSelectedId(stock.id === selectedId ? null : stock.id)`. */
  function Toggle(selected: Option<string>, clicked: string): (r: Option<string>)
    ensures r.None? <==> selected == Some(clicked)
    ensures r.Some? ==> r.value == clicked
  {
    if selected == Some(clicked) then None else Some(clicked)
  }

  /** Clicking the same card twice returns to the first state when it started
      selected, and to no selection otherwise. */
  lemma ToggleTwice(selected: Option<string>, clicked: string)
    ensures Toggle(Toggle(selected, clicked), clicked) == (if selected == Some(clicked) then selected else None)
  {
  }
}
