/**
 * The HTTP handlers of server/routes.ts. A handler takes the request and the store and gives
 * a status and a body, changing the store in place where the route writes. Request bodies
 * are validated by a schema parser that is left abstract: a function from the parsed JSON
 * body to a validated payload, or None where the parser throws its validation error.
 */
module Routes {
  import opened Options
  import opened Schema
  import opened IdMaps
  import opened Storage

  /** The user every read handler lists for, in place of authentication. */
  const DemoUserId := 1

  /** A parsed JSON request body. */
  datatype Json =
    | JNull
    | JBool(b: bool)
    | JNumber(n: int)
    | JString(s: string)
    | JArray(items: seq<Json>)
    | JObject(fields: map<string, Json>)

  /** A JSON response body. */
  datatype Body =
    | CreditList(credits: seq<CarbonCredit>)
    | CreditFound(credit: CarbonCredit)
    | OrderCreated(order: Order)
    | OrderList(orders: seq<Order>)
    | PortfolioList(items: seq<PortfolioItem>)
    | ContactReceived(message: string, id: int)
    | Stats(totalCredits: int, activeBuyers: string, verifiedSellers: string)
    | Error(error: string)

  datatype Response = Response(status: int, body: Body)

  // ---------------------------------------------------------------------------
  // Market statistics

  /** `credits.reduce((sum, credit) => sum + credit.available, 0)`. */
  function SumAvailable(credits: seq<CarbonCredit>): int {
    if credits == [] then 0
    else SumAvailable(credits[..|credits| - 1]) + credits[|credits| - 1].available
  }

  lemma {:induction false} SumAvailableAppend(a: seq<CarbonCredit>, b: seq<CarbonCredit>)
    ensures SumAvailable(a + b) == SumAvailable(a) + SumAvailable(b)
  {
    if b == [] {
      assert a + b == a;
    } else {
      var b' := b[..|b| - 1];
      assert (a + b)[..|a + b| - 1] == a + b';
      SumAvailableAppend(a, b');
    }
  }

  /** With no credit below zero, the total is not below zero. */
  lemma {:induction false} SumAvailableNonNegative(credits: seq<CarbonCredit>)
    requires forall i :: 0 <= i < |credits| ==> credits[i].available >= 0
    ensures SumAvailable(credits) >= 0
  {
    if credits != [] {
      SumAvailableNonNegative(credits[..|credits| - 1]);
    }
  }

  /** Replacing one stored credit changes the total by the difference in availability. */
  lemma {:induction false} SumAvailableAfterSet(m: map<int, CarbonCredit>, n: int, k: int, c: CarbonCredit)
    requires k in m && 1 <= k < n
    ensures SumAvailable(ValuesBelow(m[k := c], n)) == SumAvailable(ValuesBelow(m, n)) - m[k].available + c.available
    decreases n
  {
    var m' := m[k := c];
    var init, init' := ValuesBelow(m, n - 1), ValuesBelow(m', n - 1);
    var last := if n - 1 in m then [m[n - 1]] else [];
    var last' := if n - 1 in m' then [m'[n - 1]] else [];
    SumAvailableAppend(init, last);
    SumAvailableAppend(init', last');
    if k < n - 1 {
      assert last' == last;
      SumAvailableAfterSet(m, n - 1, k, c);
    } else {
      ValuesBelowFrame(m, m', n - 1);
      assert init' == init && last' == [c] && last == [m[k]];
    }
  }

  /** With no stored credit below zero, the total that `GET /api/market-stats` computes is not below zero. */
  lemma StoredTotalNonNegative(storage: MemStorage)
    ensures storage.CreditsNonNegative() ==> SumAvailable(storage.GetCarbonCredits()) >= 0
  {
    if storage.CreditsNonNegative() {
      var credits := storage.GetCarbonCredits();
      forall i | 0 <= i < |credits|
        ensures credits[i].available >= 0
      {
        ValuesBelowStored(storage.carbonCredits, storage.currentCreditId, i);
      }
      SumAvailableNonNegative(credits);
    }
  }

  /** `GET /api/market-stats`, with the total before it is scaled and formatted. */
  function MarketStats(storage: MemStorage): (res: Response)
    reads storage
    ensures res.status == 200 && res.body.Stats?
    ensures res.body.totalCredits == SumAvailable(storage.GetCarbonCredits())
    ensures storage.CreditsNonNegative() ==> res.body.totalCredits >= 0
    ensures res.body.activeBuyers == "15,200" && res.body.verifiedSellers == "3,840"
  {
    StoredTotalNonNegative(storage);
    Response(200, Stats(SumAvailable(storage.GetCarbonCredits()), "15,200", "3,840"))
  }

  // ---------------------------------------------------------------------------
  // Reads

  /** `GET /api/carbon-credits`: every stored credit, in insertion order. */
  function ListCarbonCredits(storage: MemStorage): (res: Response)
    reads storage
    requires storage.Valid()
    ensures res.status == 200 && res.body.CreditList?
    ensures forall i :: 0 <= i < |res.body.credits| ==> res.body.credits[i] in storage.carbonCredits.Values
    ensures forall id :: id in storage.carbonCredits ==> storage.carbonCredits[id] in res.body.credits
    ensures |res.body.credits| == |storage.carbonCredits|
    ensures var ks := KeysInOrder(storage.carbonCredits, storage.currentCreditId);
      && |res.body.credits| == |ks|
      && (forall i :: 0 <= i < |ks| ==> ks[i] in storage.carbonCredits && res.body.credits[i] == storage.carbonCredits[ks[i]])
      && (forall i, j :: 0 <= i < j < |ks| ==> ks[i] < ks[j])
      && (forall id :: id in ks <==> id in storage.carbonCredits)
  {
    storage.CreditsListed();
    Response(200, CreditList(storage.GetCarbonCredits()))
  }

  /**
   * `GET /api/carbon-credits/:id`, given the result of `parseInt` on the path parameter
   * (None for NaN): 404 exactly when no credit is stored under that id.
   */
  function GetCarbonCreditById(storage: MemStorage, id: Option<int>): (res: Response)
    reads storage
    ensures res.status == 404 <==> id.None? || id.value !in storage.carbonCredits
    ensures res.status == 404 ==> res.body == Error("Carbon credit not found")
    ensures res.status != 404 ==> res.status == 200 && res.body == CreditFound(storage.carbonCredits[id.value])
  {
    var credit := if id.Some? then storage.GetCarbonCredit(id.value) else None;
    if credit.None? then Response(404, Error("Carbon credit not found"))
    else Response(200, CreditFound(credit.value))
  }

  /** `GET /api/orders`: the demo user's orders, in insertion order. */
  function ListOrders(storage: MemStorage): (res: Response)
    reads storage
    requires storage.Valid()
    ensures res.status == 200 && res.body.OrderList?
    ensures forall i :: 0 <= i < |res.body.orders| ==>
      res.body.orders[i].userId == DemoUserId && Get(storage.orders, res.body.orders[i].id) == Some(res.body.orders[i])
    ensures forall id :: id in storage.orders && storage.orders[id].userId == DemoUserId ==>
      storage.orders[id] in res.body.orders
    ensures forall i, j :: 0 <= i < j < |res.body.orders| ==> res.body.orders[i].id < res.body.orders[j].id
  {
    storage.OrdersInIdOrder(DemoUserId);
    Response(200, OrderList(storage.GetOrders(DemoUserId)))
  }

  /** `GET /api/portfolio`: the demo user's portfolio items, in insertion order. */
  function ListPortfolio(storage: MemStorage): (res: Response)
    reads storage
    requires storage.Valid()
    ensures res.status == 200 && res.body.PortfolioList?
    ensures forall i :: 0 <= i < |res.body.items| ==>
      res.body.items[i].userId == DemoUserId && Get(storage.portfolioItems, res.body.items[i].id) == Some(res.body.items[i])
    ensures forall id :: id in storage.portfolioItems && storage.portfolioItems[id].userId == DemoUserId ==>
      storage.portfolioItems[id] in res.body.items
    ensures forall i, j :: 0 <= i < j < |res.body.items| ==> res.body.items[i].id < res.body.items[j].id
  {
    storage.PortfolioItemsInIdOrder(DemoUserId);
    Response(200, PortfolioList(storage.GetPortfolioItems(DemoUserId)))
  }

  // ---------------------------------------------------------------------------
  // Writes

  /**
   * `POST /api/orders`. An invalid body is refused with 400 and nothing changes. A valid one
   * always creates exactly one pending order and answers 201; only afterwards is the
   * credit's availability lowered by the quantity, and only when that credit exists and has
   * at least that many available. Nothing undoes the order when it does not.
   */
  method PostOrder(storage: MemStorage, body: Json, validate: Json -> Option<InsertOrder>, now: Timestamp)
    returns (res: Response)
    requires storage.Valid()
    modifies storage`orders, storage`currentOrderId, storage`carbonCredits
    ensures storage.Valid()
    ensures validate(body).None? ==>
      && res == Response(400, Error("Invalid order data"))
      && storage.orders == old(storage.orders) && storage.currentOrderId == old(storage.currentOrderId)
      && storage.carbonCredits == old(storage.carbonCredits)
    ensures validate(body).Some? ==>
      var o := validate(body).value;
      var before := old(storage.GetCarbonCredit(o.creditId));
      var decremented := before.Some? && before.value.available >= o.quantity;
      && res == Response(201, OrderCreated(NewOrder(old(storage.currentOrderId), o, now)))
      && res.body.order.id !in old(storage.orders)
      && storage.orders == old(storage.orders)[res.body.order.id := res.body.order]
      && storage.currentOrderId == old(storage.currentOrderId) + 1
      && (decremented ==>
            storage.carbonCredits == old(storage.carbonCredits)[o.creditId := before.value.(available := before.value.available - o.quantity)])
      && (!decremented ==> storage.carbonCredits == old(storage.carbonCredits))
      && SumAvailable(storage.GetCarbonCredits()) ==
           old(SumAvailable(storage.GetCarbonCredits())) - (if decremented then o.quantity else 0)
      && (forall id :: id != o.creditId ==> storage.GetCarbonCredit(id) == old(storage.GetCarbonCredit(id)))
    ensures old(storage.CreditsNonNegative()) ==> storage.CreditsNonNegative()
  {
    var validated := validate(body);
    if validated.None? {
      return Response(400, Error("Invalid order data"));
    }
    var validatedOrder := validated.value;
    var order := storage.CreateOrder(validatedOrder, now);

    // Lower the stock only when the credit exists and covers the quantity.
    var credit := storage.GetCarbonCredit(validatedOrder.creditId);
    if credit.Some? && credit.value.available >= validatedOrder.quantity {
      ghost var credits := storage.carbonCredits;
      var updated := storage.UpdateCarbonCredit(validatedOrder.creditId,
        AvailableUpdate(credit.value.available - validatedOrder.quantity));
      SumAvailableAfterSet(credits, storage.currentCreditId, validatedOrder.creditId, updated.value);
    }
    res := Response(201, OrderCreated(order));
  }

  /**
   * `POST /api/contact`. An invalid body is refused with 400 and nothing is stored; a valid
   * one is stored under the next contact id, which the 201 answer carries.
   */
  method PostContact(storage: MemStorage, body: Json, validate: Json -> Option<InsertContactRequest>, now: Timestamp)
    returns (res: Response)
    requires storage.Valid()
    modifies storage`contactRequests, storage`currentContactId
    ensures storage.Valid()
    ensures validate(body).None? ==>
      && res == Response(400, Error("Invalid contact data"))
      && storage.contactRequests == old(storage.contactRequests)
      && storage.currentContactId == old(storage.currentContactId)
    ensures validate(body).Some? ==>
      && res == Response(201, ContactReceived("Contact request submitted successfully", old(storage.currentContactId)))
      && res.body.id !in old(storage.contactRequests)
      && storage.currentContactId == old(storage.currentContactId) + 1
      && var v := validate(body).value;
         storage.contactRequests == old(storage.contactRequests)[res.body.id :=
           ContactRequest(res.body.id, v.firstName, v.lastName, v.email, StoredCompany(v.company), v.interest, v.message, now)]
  {
    var validated := validate(body);
    if validated.None? {
      return Response(400, Error("Invalid contact data"));
    }
    var contactRequest := storage.CreateContactRequest(validated.value, now);
    res := Response(201, ContactReceived("Contact request submitted successfully", contactRequest.id));
  }
}
