/** The realtime price route (src/app/api/stock-prices/realtime/route.ts): it reads
    the exchange's after-hours last-price list, keeps the thirteen financial holding
    companies and maps each row to a quote. Every failure answers an empty list.

    The upstream rows arrive with their numeric fields already parsed: `ClosePrice`
    and `TradeVolume` as numbers, `Change` as `None` when `parseFloat` gives NaN. */
module Realtime {
  import opened Common

  /** One row of the upstream list. */
  datatype Row = Row(code: string, name: string, closePrice: real, change: Option<real>, tradeVolume: int)

  /** The outcome of the upstream request. */
  datatype Upstream = NotOk | Threw | NotArray | Rows(rows: seq<Row>)

  /** One quote of the answer. */
  datatype Quote = Quote(id: string, name: string, price: real, change: real, volume: int, timestamp: string)

  /** The whitelist of ticker ids. */
  const FhcIds: seq<string> := ["2880", "2881", "2882", "2883", "2884", "2885", "2886", "2887", "2889", "2890", "2891", "2892", "5880"]

  /** The field mapping; `parseFloat(Change) || 0` turns NaN and 0 into 0. */
  function ToQuote(r: Row, now: string): Quote {
    Quote(r.code, r.name, r.closePrice, OrZero(r.change), r.tradeVolume, now)
  }

  /** `data.filter(s => fhcIds.includes(s.Code)).map(...)`. */
  function Whitelisted(rows: seq<Row>, now: string): seq<Quote> {
    if |rows| == 0 then []
    else (if rows[0].code in FhcIds then [ToQuote(rows[0], now)] else []) + Whitelisted(rows[1..], now)
  }

  /** `GET`: the whitelisted quotes, or `[]` on a non-OK response, a non-array body
      or a thrown error. */
  function Get(u: Upstream, now: string): (r: seq<Quote>)
    ensures !u.Rows? ==> r == []
  {
    if u.Rows? then Whitelisted(u.rows, now) else []
  }

  /** Every quote comes from a whitelisted row, every whitelisted row gives its quote,
      and the answer is never longer than the upstream list. */
  lemma {:induction false} WhitelistedContents(rows: seq<Row>, now: string)
    ensures |Whitelisted(rows, now)| <= |rows|
    ensures forall q :: q in Whitelisted(rows, now) ==>
              q.id in FhcIds && exists r :: r in rows && q == ToQuote(r, now)
    ensures forall r :: r in rows && r.code in FhcIds ==> ToQuote(r, now) in Whitelisted(rows, now)
  {
    if |rows| > 0 {
      WhitelistedContents(rows[1..], now);
      forall q | q in Whitelisted(rows, now)
        ensures q.id in FhcIds && exists r :: r in rows && q == ToQuote(r, now)
      {
        if q !in Whitelisted(rows[1..], now) {
          assert rows[0] in rows && q == ToQuote(rows[0], now);
        } else {
          var r :| r in rows[1..] && q == ToQuote(r, now);
          assert r in rows;
        }
      }
      forall r | r in rows && r.code in FhcIds
        ensures ToQuote(r, now) in Whitelisted(rows, now)
      {
        if r != rows[0] {
          assert r in rows[1..];
        }
      }
    }
  }

  /** Upstream order is kept: the filter distributes over concatenation, so rows that
      come earlier upstream come earlier in the answer. */
  lemma {:induction false} WhitelistedKeepsOrder(a: seq<Row>, b: seq<Row>, now: string)
    ensures Whitelisted(a + b, now) == Whitelisted(a, now) + Whitelisted(b, now)
  {
    if |a| > 0 {
      assert (a + b)[1..] == a[1..] + b;
      WhitelistedKeepsOrder(a[1..], b, now);
    } else {
      assert a + b == b;
    }
  }

  /** A row with an unparseable or zero change reports change 0. */
  lemma ChangeDefaultsToZero(r: Row, now: string)
    ensures r.change.None? ==> ToQuote(r, now).change == 0.0
    ensures ToQuote(r, now).id == r.code && ToQuote(r, now).name == r.name
  {
  }
}
