/** The holding table behind the portfolio route (src/app/api/portfolio/route.ts).
    GET lists one user's holdings, POST validates a body and upserts the holding
    keyed by (user, stock), and DELETE removes a holding by id.

    The table is a map from the (userId, stockId) pair to the holding row, which is
    how the compound unique key of the upsert addresses it. Identifiers that the
    database generates are parameters. Body fields are read as already-decoded JSON:
    a field that is absent is `None`. */
module PortfolioApi {
  import opened Common

  /** One row of the holding table. */
  datatype Holding = Holding(id: string, userId: string, stockId: string, avgCost: real, quantity: int)

  type Key = (string, string)

  /** Every row sits under its own (userId, stockId) pair, and no two rows share an id. */
  predicate TableOk(rows: map<Key, Holding>) {
    (forall k :: k in rows ==> rows[k].userId == k.0 && rows[k].stockId == k.1) &&
    (forall k1, k2 :: k1 in rows && k2 in rows && rows[k1].id == rows[k2].id ==> k1 == k2)
  }

  predicate HasId(rows: map<Key, Holding>, id: string) {
    exists k :: k in rows && rows[k].id == id
  }

  /** `parseInt` of a number: its integer part, toward zero. */
  function Trunc(x: real): (r: int)
    ensures 0.0 <= x ==> r as real <= x < r as real + 1.0
    ensures x < 0.0 ==> r as real - 1.0 < x <= r as real
  {
    if x >= 0.0 then Floor(x) else -Floor(-x)
  }

  /** The user POST writes for: the destructuring default applies only when the field
      is absent, so an empty string is kept. POST and GET therefore agree on the user
      for every request except one that names the empty user. */
  function PostUser(userId: Option<string>): (r: string)
    ensures r == UserOrDefault(userId) <==> userId != Some("")
    ensures r == "" <==> userId == Some("")
  {
    userId.GetOr(DefaultUser)
  }

  /** POST's 400 test: a falsy stock id or an absent cost or quantity. */
  predicate Rejected(stockId: Option<string>, avgCost: Option<real>, quantity: Option<real>) {
    stockId.None? || stockId == Some("") || avgCost.None? || quantity.None?
  }

  /** The upsert on the pair (userId, stockId): an existing holding takes the new cost
      and quantity and keeps its id; otherwise a new holding is created under freshId. */
  function Upsert(rows: map<Key, Holding>, userId: string, stockId: string, avgCost: real, quantity: int,
                  freshId: string): (r: map<Key, Holding>)
    requires TableOk(rows)
    ensures r.Keys == rows.Keys + {(userId, stockId)}
    ensures forall k :: k in rows && k != (userId, stockId) ==> r[k] == rows[k]
    ensures var h := r[(userId, stockId)];
            h.userId == userId && h.stockId == stockId && h.avgCost == avgCost && h.quantity == quantity
    ensures (userId, stockId) in rows ==> r[(userId, stockId)].id == rows[(userId, stockId)].id
    ensures (userId, stockId) !in rows ==> r[(userId, stockId)].id == freshId
  {
    var key := (userId, stockId);
    if key in rows then rows[key := rows[key].(avgCost := avgCost, quantity := quantity)]
    else rows[key := Holding(freshId, userId, stockId, avgCost, quantity)]
  }

  /** The delete by id: every row but the one carrying the id. */
  function RemoveId(rows: map<Key, Holding>, id: string): (r: map<Key, Holding>)
    ensures forall k :: k in r <==> k in rows && rows[k].id != id
    ensures forall k :: k in r ==> r[k] == rows[k]
  {
    map k | k in rows && rows[k].id != id :: rows[k]
  }

  /** The upsert keeps the table well formed when the generated id is unused. */
  lemma UpsertKeepsTable(rows: map<Key, Holding>, userId: string, stockId: string, avgCost: real, quantity: int,
                         freshId: string)
    requires TableOk(rows) && !HasId(rows, freshId)
    ensures TableOk(Upsert(rows, userId, stockId, avgCost, quantity, freshId))
  {
    var r := Upsert(rows, userId, stockId, avgCost, quantity, freshId);
    forall k1, k2 | k1 in r && k2 in r && r[k1].id == r[k2].id ensures k1 == k2 {
      if k1 != (userId, stockId) && k2 != (userId, stockId) {
        assert rows[k1].id == rows[k2].id;
      }
    }
  }

  /** Posting the same holding twice has the effect of posting it once. */
  lemma UpsertIdempotent(rows: map<Key, Holding>, userId: string, stockId: string, avgCost: real, quantity: int,
                         freshId: string, otherId: string)
    requires TableOk(rows) && !HasId(rows, freshId)
    ensures var once := Upsert(rows, userId, stockId, avgCost, quantity, freshId);
            Upsert(once, userId, stockId, avgCost, quantity, otherId) == once
  {
  }

  /** Deleting the holding a POST has just created restores the table. */
  lemma DeleteUndoesCreate(rows: map<Key, Holding>, userId: string, stockId: string, avgCost: real, quantity: int,
                           freshId: string)
    requires TableOk(rows) && !HasId(rows, freshId) && (userId, stockId) !in rows
    ensures RemoveId(Upsert(rows, userId, stockId, avgCost, quantity, freshId), freshId) == rows
  {
    var r := RemoveId(Upsert(rows, userId, stockId, avgCost, quantity, freshId), freshId);
    assert r.Keys == rows.Keys;
  }

  /** Deleting an id present in a well-formed table removes exactly one holding. */
  lemma DeleteRemovesOne(rows: map<Key, Holding>, id: string)
    requires TableOk(rows) && HasId(rows, id)
    ensures |RemoveId(rows, id)| == |rows| - 1
  {
    var k :| k in rows && rows[k].id == id;
    assert RemoveId(rows, id).Keys == rows.Keys - {k};
  }

  /** A holding posted with an empty user id is stored under "" while GET reads "" as
      the default user, so that holding is never listed. */
  lemma EmptyUserIdNotListed(rows: map<Key, Holding>, stockId: string, avgCost: real, quantity: int, freshId: string)
    requires TableOk(rows)
    ensures var r := Upsert(rows, PostUser(Some("")), stockId, avgCost, quantity, freshId);
            r[("", stockId)].userId != UserOrDefault(Some(""))
  {
  }

  /** A holding posted with no user id, or any non-empty one, is among the holdings a GET
      with the same user id lists. */
  lemma PostedIsListed(rows: map<Key, Holding>, userId: Option<string>, stockId: string, avgCost: real,
                       quantity: int, freshId: string)
    requires TableOk(rows) && userId != Some("")
    ensures var r := Upsert(rows, PostUser(userId), stockId, avgCost, quantity, freshId);
            var h := r[(PostUser(userId), stockId)];
            h in r.Values && h.userId == UserOrDefault(userId)
  {
  }

  datatype PostReply = BadRequest | Saved(holding: Holding)

  datatype DeleteReply = MissingId | NotFound | Deleted

  /** The holding table. */
  class HoldingTable {
    var rows: map<Key, Holding>

    predicate Valid()
      reads this
    {
      TableOk(rows)
    }

    constructor()
      ensures rows == map[] && Valid()
    {
      rows := map[];
    }

    /** `GET`: the holdings of the requested user. */
    method Get(userId: Option<string>) returns (holdings: set<Holding>)
      ensures forall h :: h in holdings <==> h in rows.Values && h.userId == UserOrDefault(userId)
    {
      var user := UserOrDefault(userId);
      holdings := set k | k in rows && rows[k].userId == user :: rows[k];
    }

    /** `POST`: 400 on a falsy stock id or an absent cost or quantity; otherwise the
        upsert, with the quantity truncated to an integer. */
    method Post(stockId: Option<string>, avgCost: Option<real>, quantity: Option<real>, userId: Option<string>,
                freshId: string) returns (reply: PostReply)
      requires Valid() && !HasId(rows, freshId)
      modifies this
      ensures Valid()
      ensures reply.BadRequest? <==> Rejected(stockId, avgCost, quantity)
      ensures reply.BadRequest? ==> rows == old(rows)
      ensures reply.Saved? ==>
                rows == Upsert(old(rows), PostUser(userId), stockId.value, avgCost.value, Trunc(quantity.value), freshId) &&
                reply.holding == rows[(PostUser(userId), stockId.value)]
    {
      if Rejected(stockId, avgCost, quantity) {
        return BadRequest;
      }
      var user := PostUser(userId);
      UpsertKeepsTable(rows, user, stockId.value, avgCost.value, Trunc(quantity.value), freshId);
      rows := Upsert(rows, user, stockId.value, avgCost.value, Trunc(quantity.value), freshId);
      reply := Saved(rows[(user, stockId.value)]);
    }

    /** `DELETE`: 400 without a non-empty id, an error (500) when no holding has the id,
        otherwise that holding is removed. */
    method Delete(id: Option<string>) returns (reply: DeleteReply)
      requires Valid()
      modifies this
      ensures Valid()
      ensures reply == MissingId <==> id.None? || id == Some("")
      ensures reply == NotFound <==> id.Some? && id != Some("") && !HasId(old(rows), id.value)
      ensures reply == Deleted ==> rows == RemoveId(old(rows), id.value) && |rows| == |old(rows)| - 1
      ensures reply != Deleted ==> rows == old(rows)
    {
      if id.None? || id == Some("") {
        return MissingId;
      }
      if !HasId(rows, id.value) {
        return NotFound;
      }
      DeleteRemovesOne(rows, id.value);
      rows := RemoveId(rows, id.value);
      reply := Deleted;
    }
  }
}
