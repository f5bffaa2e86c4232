/** The rules of the `dailyPrice` time-series table as the sync service uses it
    (src/lib/services/sync-service.ts): rows are keyed by (stockId, timestamp),
    an upsert updates the price of an existing row and creates a row with volume 0
    otherwise, and cleanup deletes every row older than 24 hours. The table itself
    is a map; the database engine is not part of this model. */
module PriceStore {
  import opened Common
  import opened MarketQuote

  /** (stockId, timestamp in epoch milliseconds). */
  type RowKey = (string, int)

  datatype PriceRow = PriceRow(price: real, volume: int)

  type Table = map<RowKey, PriceRow>

  const DayMs := 24 * 60 * 60 * 1000

  /** `upsert({ where: key, create: {price, volume: 0}, update: {price} })`. */
  function UpsertPoint(rows: Table, key: RowKey, price: real): (r: Table)
    ensures r.Keys == rows.Keys + {key}
    ensures r[key].price == price
    ensures r[key].volume == (if key in rows then rows[key].volume else 0)
    ensures forall k :: k in rows && k != key ==> r[k] == rows[k]
  {
    if key in rows then rows[key := rows[key].(price := price)]
    else rows[key := PriceRow(price, 0)]
  }

  /** The row key written for upstream timestamp i of a ticker. */
  function KeyAt(id: string, stamps: seq<Stamp>, i: int): RowKey
    requires 0 <= i < |stamps|
  {
    (id, stamps[i].epochSeconds * 1000)
  }

  /** Index i of the batch writes a row: only a null/undefined price is skipped. */
  predicate Writes(closes: seq<Option<real>>, i: int) {
    QuoteAt(closes, i).Some?
  }

  /** The batch of upserts for the first n timestamps of one ticker, in index order. */
  function UpsertBatch(rows: Table, id: string, stamps: seq<Stamp>, closes: seq<Option<real>>, n: nat): Table
    requires n <= |stamps|
  {
    if n == 0 then rows
    else
      var r := UpsertBatch(rows, id, stamps, closes, n - 1);
      if Writes(closes, n - 1) then UpsertPoint(r, KeyAt(id, stamps, n - 1), QuoteAt(closes, n - 1).value) else r
  }

  /** Some index below n writes to key k. */
  predicate Written(id: string, stamps: seq<Stamp>, closes: seq<Option<real>>, n: nat, k: RowKey)
    requires n <= |stamps|
  {
    exists i :: 0 <= i < n && Writes(closes, i) && KeyAt(id, stamps, i) == k
  }

  /** The price the last write to k below n leaves behind. */
  function LastWrite(id: string, stamps: seq<Stamp>, closes: seq<Option<real>>, n: nat, k: RowKey): real
    requires n <= |stamps|
    requires Written(id, stamps, closes, n, k)
  {
    if Writes(closes, n - 1) && KeyAt(id, stamps, n - 1) == k then QuoteAt(closes, n - 1).value
    else
      assert Written(id, stamps, closes, n - 1, k);
      LastWrite(id, stamps, closes, n - 1, k)
  }

  /** What a batch does to the table: keys it does not write are untouched; a key it
      writes holds the last price written to it, keeps an existing row's volume, and
      starts a new row at volume 0. Only the ticker's own rows are written. */
  lemma {:induction false} UpsertBatchShape(rows: Table, id: string, stamps: seq<Stamp>, closes: seq<Option<real>>, n: nat)
    requires n <= |stamps|
    ensures var r := UpsertBatch(rows, id, stamps, closes, n);
            forall k :: Written(id, stamps, closes, n, k) ==>
              k.0 == id && k in r &&
              r[k] == PriceRow(LastWrite(id, stamps, closes, n, k), if k in rows then rows[k].volume else 0)
    ensures var r := UpsertBatch(rows, id, stamps, closes, n);
            forall k :: !Written(id, stamps, closes, n, k) ==> (k in r <==> k in rows) && (k in rows ==> r[k] == rows[k])
  {
    if n > 0 {
      UpsertBatchShape(rows, id, stamps, closes, n - 1);
      var prev := UpsertBatch(rows, id, stamps, closes, n - 1);
      var r := UpsertBatch(rows, id, stamps, closes, n);
      forall k | Written(id, stamps, closes, n, k)
        ensures k.0 == id && k in r
        ensures r[k] == PriceRow(LastWrite(id, stamps, closes, n, k), if k in rows then rows[k].volume else 0)
      {
        var i :| 0 <= i < n && Writes(closes, i) && KeyAt(id, stamps, i) == k;
        if !(Writes(closes, n - 1) && KeyAt(id, stamps, n - 1) == k) {
          assert i < n - 1;
          assert Written(id, stamps, closes, n - 1, k);
        }
      }
      forall k | !Written(id, stamps, closes, n, k)
        ensures (k in r <==> k in rows) && (k in rows ==> r[k] == rows[k])
      {
        assert !Written(id, stamps, closes, n - 1, k);
      }
    }
  }

  /** Re-syncing the same upstream data updates the rows instead of duplicating them:
      running a batch twice leaves the table as running it once. */
  lemma UpsertBatchIdempotent(rows: Table, id: string, stamps: seq<Stamp>, closes: seq<Option<real>>)
    ensures var once := UpsertBatch(rows, id, stamps, closes, |stamps|);
            UpsertBatch(once, id, stamps, closes, |stamps|) == once
  {
    var n := |stamps|;
    var once := UpsertBatch(rows, id, stamps, closes, n);
    var twice := UpsertBatch(once, id, stamps, closes, n);
    UpsertBatchShape(rows, id, stamps, closes, n);
    UpsertBatchShape(once, id, stamps, closes, n);
    assert twice.Keys == once.Keys by {
      forall k ensures k in twice <==> k in once {
        if Written(id, stamps, closes, n, k) {
        }
      }
    }
    forall k | k in once ensures twice[k] == once[k] {
      if Written(id, stamps, closes, n, k) {
      }
    }
  }

  /** `deleteMany({ where: { timestamp: { lt: cutoff } } })`. */
  function Prune(rows: Table, cutoff: int): (r: Table)
    ensures forall k :: k in r <==> k in rows && k.1 >= cutoff
    ensures forall k :: k in r ==> r[k] == rows[k]
  {
    map k | k in rows && k.1 >= cutoff :: rows[k]
  }

  /** Cleanup is idempotent and never deletes a row at or after the cutoff. */
  lemma PruneIdempotent(rows: Table, cutoff: int)
    ensures Prune(Prune(rows, cutoff), cutoff) == Prune(rows, cutoff)
  {
    var once := Prune(rows, cutoff);
    assert Prune(once, cutoff).Keys == once.Keys;
  }

  /** Every finite non-empty set of timestamps has an earliest member. */
  lemma {:induction false} HasEarliest(s: set<int>)
    requires s != {}
    ensures exists m :: m in s && forall x :: x in s ==> m <= x
    decreases |s|
  {
    if forall z :: z !in s {
      assert false;
    }
    var y :| y in s;
    var rest := s - {y};
    if rest == {} {
      forall x | x in s ensures y <= x {
        assert x !in rest;
      }
    } else {
      HasEarliest(rest);
      var m :| m in rest && forall x :: x in rest ==> m <= x;
      var e := if y < m then y else m;
      forall x | x in s ensures e <= x {
        if x != y {
          assert x in rest;
        }
      }
      assert e in s;
    }
  }
}
