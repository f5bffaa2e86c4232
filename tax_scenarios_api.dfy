/** The saved tax scenarios behind src/app/api/tax/scenarios/route.ts. GET lists one
    user's scenarios newest first, POST stores the figures the tax page sends with
    every missing number read as 0, and DELETE removes a scenario by id.

    The table is a sequence of rows in insertion order. The generated id and the
    creation time (milliseconds) are parameters. Body fields are already-decoded JSON:
    an absent or null number is `None`. */
module TaxScenariosApi {
  import opened Common

  /** One stored scenario. */
  datatype Scenario = Scenario(id: string, userId: string, stockId: string, stockName: string, shares: int,
                               price: real, dividend: real, totalDividend: real, netDividend: real,
                               nhiPremium: real, taxCredit: real, createdAt: int)

  /** The POST body as the tax page sends it. */
  datatype Body = Body(userId: Option<string>, stockId: string, stockName: string, shares: Option<real>,
                       price: Option<real>, dividend: Option<real>, totalDividend: Option<real>,
                       netDividend: Option<real>, nhiPremium: Option<real>, taxCredit: Option<real>)

  /** `BigInt(Math.floor(shares || 0))`: the share count floored to an integer. */
  function SharesOf(shares: Option<real>): (r: int)
    ensures shares.None? ==> r == 0
    ensures shares.Some? ==> r as real <= shares.value < r as real + 1.0
  {
    Floor(OrZero(shares))
  }

  /** The row POST creates. */
  function NewScenario(b: Body, id: string, now: int): (s: Scenario)
    ensures s.id == id && s.createdAt == now && s.userId == UserOrDefault(b.userId)
    ensures s.stockId == b.stockId && s.stockName == b.stockName && s.shares == SharesOf(b.shares)
    ensures s.price == OrZero(b.price) && s.dividend == OrZero(b.dividend)
    ensures s.totalDividend == OrZero(b.totalDividend) && s.netDividend == OrZero(b.netDividend)
    ensures s.nhiPremium == OrZero(b.nhiPremium) && s.taxCredit == OrZero(b.taxCredit)
  {
    Scenario(id, UserOrDefault(b.userId), b.stockId, b.stockName, SharesOf(b.shares), OrZero(b.price),
             OrZero(b.dividend), OrZero(b.totalDividend), OrZero(b.netDividend), OrZero(b.nhiPremium),
             OrZero(b.taxCredit), now)
  }

  /** A body that carries no numbers at all stores zeros everywhere. */
  lemma EmptyBodyStoresZeros(userId: Option<string>, stockId: string, stockName: string, id: string, now: int)
    ensures var s := NewScenario(Body(userId, stockId, stockName, None, None, None, None, None, None, None), id, now);
            s.shares == 0 && s.price == 0.0 && s.dividend == 0.0 && s.totalDividend == 0.0 &&
            s.netDividend == 0.0 && s.nhiPremium == 0.0 && s.taxCredit == 0.0
  {
  }

  predicate DistinctIds(rows: seq<Scenario>) {
    forall i, j :: 0 <= i < j < |rows| ==> rows[i].id != rows[j].id
  }

  predicate HasId(rows: seq<Scenario>, id: string) {
    exists i :: 0 <= i < |rows| && rows[i].id == id
  }

  /** The rows of one user, in table order. */
  function OfUser(rows: seq<Scenario>, user: string): (r: seq<Scenario>)
    ensures forall s :: s in r <==> s in rows && s.userId == user
    ensures |r| <= |rows|
  {
    if |rows| == 0 then []
    else
      assert forall s :: s in rows <==> s == rows[|rows| - 1] || s in rows[..|rows| - 1];
      OfUser(rows[..|rows| - 1], user) + (if rows[|rows| - 1].userId == user then [rows[|rows| - 1]] else [])
  }

  /** Every row but the one carrying the id, in table order. */
  function WithoutId(rows: seq<Scenario>, id: string): (r: seq<Scenario>)
    ensures |r| <= |rows|
  {
    if |rows| == 0 then []
    else WithoutId(rows[..|rows| - 1], id) + (if rows[|rows| - 1].id != id then [rows[|rows| - 1]] else [])
  }

  /** What the delete keeps: exactly the rows that do not carry the id. */
  lemma {:induction false} WithoutIdMembers(rows: seq<Scenario>, id: string)
    ensures forall s :: s in WithoutId(rows, id) <==> s in rows && s.id != id
  {
    if |rows| > 0 {
      var init := rows[..|rows| - 1];
      WithoutIdMembers(init, id);
      assert rows == init + [rows[|rows| - 1]];
    }
  }

  /** The ordering key of `orderBy: { createdAt: "desc" }`. */
  function NewestFirst(s: Scenario): int {
    -s.createdAt
  }

  /** GET's list: the user's rows sorted by creation time, newest first. */
  function Listing(rows: seq<Scenario>, user: string): seq<Scenario> {
    SortBy(OfUser(rows, user), NewestFirst)
  }

  /** The listing holds exactly the user's scenarios, each as often as stored, newest
      first. */
  lemma ListingContents(rows: seq<Scenario>, user: string)
    ensures multiset(Listing(rows, user)) == multiset(OfUser(rows, user))
    ensures forall s :: s in Listing(rows, user) <==> s in rows && s.userId == user
    ensures var l := Listing(rows, user);
            forall i, j :: 0 <= i < j < |l| ==> l[i].createdAt >= l[j].createdAt
  {
    var l := Listing(rows, user);
    SortBySorted(OfUser(rows, user), NewestFirst);
    assert forall s :: s in l <==> s in multiset(l);
    forall i, j | 0 <= i < j < |l| ensures l[i].createdAt >= l[j].createdAt {
      assert NewestFirst(l[i]) <= NewestFirst(l[j]);
    }
  }

  /** A scenario just posted is listed for its user. */
  lemma PostedIsListed(rows: seq<Scenario>, b: Body, id: string, now: int)
    ensures NewScenario(b, id, now) in Listing(rows + [NewScenario(b, id, now)], UserOrDefault(b.userId))
  {
    ListingContents(rows + [NewScenario(b, id, now)], UserOrDefault(b.userId));
  }

  /** Removing an id that no other row carries drops exactly that row. */
  lemma {:induction false} WithoutFreshId(rows: seq<Scenario>, s: Scenario)
    requires !HasId(rows, s.id)
    ensures WithoutId(rows + [s], s.id) == rows
  {
    assert (rows + [s])[..|rows|] == rows;
    WithoutAbsent(rows, s.id);
  }

  /** Removing an id nobody carries changes nothing. */
  lemma {:induction false} WithoutAbsent(rows: seq<Scenario>, id: string)
    requires !HasId(rows, id)
    ensures WithoutId(rows, id) == rows
  {
    if |rows| > 0 {
      var init, last := rows[..|rows| - 1], rows[|rows| - 1];
      assert !HasId(init, id) by {
        forall i | 0 <= i < |init| ensures init[i].id != id {
          assert init[i] == rows[i];
        }
      }
      WithoutAbsent(init, id);
      assert last.id != id;
      assert init + [last] == rows;
    }
  }

  /** In a table with distinct ids, deleting a present id removes exactly one row. */
  lemma {:induction false} WithoutRemovesOne(rows: seq<Scenario>, id: string)
    requires DistinctIds(rows) && HasId(rows, id)
    ensures |WithoutId(rows, id)| == |rows| - 1
  {
    var init := rows[..|rows| - 1];
    assert DistinctIds(init);
    if rows[|rows| - 1].id == id {
      assert forall i :: 0 <= i < |init| ==> init[i] == rows[i] && rows[i].id != rows[|rows| - 1].id;
      WithoutAbsent(init, id);
    } else {
      var i :| 0 <= i < |rows| && rows[i].id == id;
      assert HasId(init, id) by {
        assert i < |rows| - 1 && init[i].id == id;
      }
      WithoutRemovesOne(init, id);
    }
  }

  /** Deleting keeps the ids distinct. */
  lemma {:induction false} WithoutKeepsDistinct(rows: seq<Scenario>, id: string)
    requires DistinctIds(rows)
    ensures DistinctIds(WithoutId(rows, id))
  {
    if |rows| > 0 {
      var init := rows[..|rows| - 1];
      assert DistinctIds(init);
      WithoutKeepsDistinct(init, id);
      WithoutIdMembers(init, id);
      var last := rows[|rows| - 1];
      forall s | s in WithoutId(init, id) ensures s.id != last.id {
        var i :| 0 <= i < |init| && init[i] == s;
        assert rows[i] == s;
      }
    }
  }

  datatype DeleteReply = MissingId | NotFound | Deleted

  /** The scenario table. */
  class ScenarioTable {
    var rows: seq<Scenario>

    predicate Valid()
      reads this
    {
      DistinctIds(rows)
    }

    constructor()
      ensures rows == [] && Valid()
    {
      rows := [];
    }

    /** `GET`: the requested user's scenarios, newest first. */
    method Get(userId: Option<string>) returns (list: seq<Scenario>)
      ensures list == Listing(rows, UserOrDefault(userId))
      ensures forall s :: s in list <==> s in rows && s.userId == UserOrDefault(userId)
      ensures forall i, j :: 0 <= i < j < |list| ==> list[i].createdAt >= list[j].createdAt
    {
      ListingContents(rows, UserOrDefault(userId));
      list := Listing(rows, UserOrDefault(userId));
    }

    /** `POST`: stores exactly one new scenario and answers it. */
    method Post(b: Body, freshId: string, now: int) returns (saved: Scenario)
      requires Valid() && !HasId(rows, freshId)
      modifies this
      ensures Valid()
      ensures saved == NewScenario(b, freshId, now)
      ensures rows == old(rows) + [saved]
    {
      saved := NewScenario(b, freshId, now);
      rows := rows + [saved];
      forall i | 0 <= i < |rows| - 1 ensures rows[i].id != saved.id {
        assert old(rows)[i] == rows[i];
      }
    }

    /** `DELETE`: 400 without a non-empty id, an error (500) when no scenario has the
        id, otherwise that scenario alone is removed. */
    method Delete(id: Option<string>) returns (reply: DeleteReply)
      requires Valid()
      modifies this
      ensures Valid()
      ensures reply == MissingId <==> id.None? || id == Some("")
      ensures reply == NotFound <==> id.Some? && id != Some("") && !HasId(old(rows), id.value)
      ensures reply == Deleted ==> rows == WithoutId(old(rows), id.value) && |rows| == |old(rows)| - 1
      ensures reply != Deleted ==> rows == old(rows)
    {
      if id.None? || id == Some("") {
        return MissingId;
      }
      if !HasId(rows, id.value) {
        return NotFound;
      }
      WithoutRemovesOne(rows, id.value);
      WithoutKeepsDistinct(rows, id.value);
      rows := WithoutId(rows, id.value);
      reply := Deleted;
    }
  }
}
