/**
 * The in-memory entity store (`MemStorage`): five JavaScript maps keyed by id, one per
 * entity type, each with its own id counter that starts at 1 and is bumped on every insert.
 */
module Storage {
  import opened Options
  import opened Schema
  import opened IdMaps
  import JsArray

  // ---------------------------------------------------------------------------
  // Delivery dates

  /** The year counts a multi-year duration code may name. */
  const YearTerms: seq<nat> := [1, 2, 5, 10]

  function Digit(d: nat): char
    requires d < 10
  {
    "0123456789"[d]
  }

  /** The decimal numeral of `n`. */
  function DecimalString(n: nat): string
    decreases n
  {
    if n < 10 then [Digit(n)] else DecimalString(n / 10) + [Digit(n % 10)]
  }

  /** The duration code for delivery after `n` years, such as "5-year". */
  function YearCode(n: nat): string {
    DecimalString(n) + "-year"
  }

  /** The year codes spelled out. */
  lemma YearCodesSpelled()
    ensures YearCode(1) == "1-year" && YearCode(2) == "2-year" && YearCode(5) == "5-year"
    ensures YearCode(10) == "10-year"
  {
    assert DecimalString(10) == "10";
  }

  /**
   * How far from now `createOrder` puts the delivery date: one day for "immediate",
   * n years for the code "<n>-year" with n one of 1, 2, 5, 10, and seven days for any
   * other code or for a missing one.
   */
  function DeliveryOffset(duration: Option<string>): (r: Offset)
    ensures duration == Some("immediate") ==> r == Days(1)
    ensures forall i :: 0 <= i < |YearTerms| && duration == Some(YearCode(YearTerms[i])) ==> r == Years(YearTerms[i])
    ensures r.Years? ==> r.years in YearTerms && duration == Some(YearCode(r.years))
    ensures r.Days? ==> r == Days(1) || r == Days(7)
    ensures r == Days(1) ==> duration == Some("immediate")
  {
    YearCodesSpelled();
    match duration
    case Some("immediate") => Days(1)
    case Some("1-year") => Years(1)
    case Some("2-year") => Years(2)
    case Some("5-year") => Years(5)
    case Some("10-year") => Years(10)
    case _ => Days(7)
  }

  /** The record `createOrder` stores for payload `o` under `id` at time `now`. */
  function NewOrder(id: int, o: InsertOrder, now: Timestamp): (r: Order)
    ensures r.id == id && r.status == "pending" && r.createdAt == now
    ensures r.deliveryDate == DeliveryDate(now, DeliveryOffset(o.duration))
    ensures r.userId == o.userId && r.creditId == o.creditId && r.quantity == o.quantity
    ensures r.totalPrice == o.totalPrice && r.unitPrice == o.unitPrice && r.duration == o.duration
  {
    Order(id, o.userId, o.creditId, o.quantity, o.totalPrice, o.unitPrice, o.duration,
          "pending", DeliveryDate(now, DeliveryOffset(o.duration)), now)
  }

  /** The company `createContactRequest` stores: null for a missing or empty one. */
  function StoredCompany(company: Option<string>): (r: Option<string>)
    ensures r.None? <==> company.None? || company.value == ""
    ensures r.Some? ==> r == company
  {
    if company.Some? && company.value != "" then company else None
  }

  // ---------------------------------------------------------------------------
  // Partial updates of a carbon credit

  /** A `Partial<CarbonCredit>`: each field may be absent. */
  datatype CreditUpdates = CreditUpdates(
    id: Option<int>,
    name: Option<string>,
    description: Option<string>,
    creditType: Option<string>,
    location: Option<string>,
    verification: Option<string>,
    price: Option<string>,
    available: Option<int>,
    vintage: Option<int>,
    imageUrl: Option<string>,
    sellerId: Option<int>,
    createdAt: Option<Option<Timestamp>>)

  /** The update `{ available: n }`. */
  function AvailableUpdate(n: int): CreditUpdates {
    CreditUpdates(None, None, None, None, None, None, None, Some(n), None, None, None, None)
  }

  /** `{ ...c, ...u }`: each field from `u` where present, from `c` otherwise. */
  function ApplyCreditUpdates(c: CarbonCredit, u: CreditUpdates): (r: CarbonCredit)
    ensures u.available.None? ==> r.available == c.available
    ensures u.available.Some? ==> r.available == u.available.value
    ensures u == AvailableUpdate(r.available) ==> r == c.(available := r.available)
  {
    CarbonCredit(
      u.id.GetOr(c.id), u.name.GetOr(c.name), u.description.GetOr(c.description),
      u.creditType.GetOr(c.creditType), u.location.GetOr(c.location),
      u.verification.GetOr(c.verification), u.price.GetOr(c.price),
      u.available.GetOr(c.available), u.vintage.GetOr(c.vintage), u.imageUrl.GetOr(c.imageUrl),
      u.sellerId.GetOr(c.sellerId), u.createdAt.GetOr(c.createdAt))
  }

  // ---------------------------------------------------------------------------
  // Sample data

  /** The fields of the six sample credits, in order. */
  const SampleRows: seq<InsertCarbonCredit> := [
    InsertCarbonCredit("Amazon Rainforest Protection",
      "Protecting 50,000 hectares of Amazon rainforest through community conservation initiatives",
      "Forestry", "Brazil", "VCS Verified", "45.00", 12500, 2023,
      "https://images.unsplash.com/photo-1441974231531-c6227db76b6e?ixlib=rb-4.0.3&auto=format&fit=crop&w=400&h=200",
      1),
    InsertCarbonCredit("Solar Farm India",
      "100MW solar installation providing clean energy to rural communities",
      "Solar Energy", "India", "Gold Standard", "38.00", 8200, 2023,
      "https://images.unsplash.com/photo-1509391366360-2e959784a276?ixlib=rb-4.0.3&auto=format&fit=crop&w=400&h=200",
      2),
    InsertCarbonCredit("Offshore Wind Farm",
      "250MW offshore wind installation generating clean electricity",
      "Wind Energy", "Denmark", "VCS Verified", "52.00", 15750, 2023,
      "https://images.unsplash.com/photo-1466611653911-95081537e5b7?ixlib=rb-4.0.3&auto=format&fit=crop&w=400&h=200",
      3),
    InsertCarbonCredit("Methane Capture Project",
      "Capturing methane emissions from agricultural waste and converting to energy",
      "Methane Reduction", "United States", "VCS Verified", "42.00", 9800, 2023,
      "https://images.unsplash.com/photo-1581089778245-3ce67677f718?ixlib=rb-4.0.3&auto=format&fit=crop&w=400&h=200",
      4),
    InsertCarbonCredit("Reforestation Kenya",
      "Large-scale tree planting initiative restoring degraded forest land",
      "Forestry", "Kenya", "Gold Standard", "35.00", 18600, 2023,
      "https://images.unsplash.com/photo-1574263867128-f5d55a4fa68b?ixlib=rb-4.0.3&auto=format&fit=crop&w=400&h=200",
      5),
    InsertCarbonCredit("Hydroelectric Power",
      "Small-scale hydroelectric project providing clean energy to remote communities",
      "Hydro Energy", "Costa Rica", "VCS Verified", "41.00", 6750, 2023,
      "https://images.unsplash.com/photo-1473341304170-971dccb5ac1e?ixlib=rb-4.0.3&auto=format&fit=crop&w=400&h=200",
      6)
  ]

  /** The fields of the `k`-th sample credit; every one starts with stock. */
  function SampleData(k: nat): (r: InsertCarbonCredit)
    requires k < 6
    ensures r.available > 0
  {
    SampleRows[k]
  }

  /** The `k`-th sample credit as stored, given the id it is assigned and the clock reading. */
  function SampleCredit(k: nat, id: int, now: Timestamp): (r: CarbonCredit)
    requires k < 6
    ensures r.id == id && r.createdAt == Some(now)
  {
    var d := SampleData(k);
    CarbonCredit(id, d.name, d.description, d.creditType, d.location, d.verification, d.price,
      d.available, d.vintage, d.imageUrl, d.sellerId, Some(now))
  }

  // ---------------------------------------------------------------------------
  // Sample data insertion

  /** No credit in `m` has negative availability. */
  predicate AvailableNonNegative(m: map<int, CarbonCredit>) {
    forall id :: id in m ==> m[id].available >= 0
  }

  /** `m` is `base` after the first `i` sample credits were set under ids `first`, `first + 1`, .... */
  ghost predicate SamplesInserted(m: map<int, CarbonCredit>, base: map<int, CarbonCredit>, first: int, i: nat, now: Timestamp)
    requires i <= 6
  {
    && IdsBelow(m, first + i)
    && (forall id :: first <= id < first + i ==> id in m && m[id] == SampleCredit(id - first, id, now))
    && (forall id :: id < first ==> Get(m, id) == Get(base, id))
  }

  /** One step of the sample-data loop. */
  lemma SampleInsertStep(m: map<int, CarbonCredit>, base: map<int, CarbonCredit>, first: int, i: nat, now: Timestamp)
    requires i < 6 && SamplesInserted(m, base, first, i, now)
    ensures SamplesInserted(m[first + i := SampleCredit(i, first + i, now)], base, first, i + 1, now)
    ensures AvailableNonNegative(m) ==> AvailableNonNegative(m[first + i := SampleCredit(i, first + i, now)])
    ensures IdsBelow(m[first + i := SampleCredit(i, first + i, now)], first + 6)
  {
  }

  /** Inserted into an empty map from id 1, the samples are all there is. */
  lemma SamplesOnly(m: map<int, CarbonCredit>, now: Timestamp)
    requires SamplesInserted(m, map[], 1, 6, now)
    ensures m.Keys == {1, 2, 3, 4, 5, 6}
    ensures forall id :: 1 <= id <= 6 ==> Get(m, id) == Some(SampleCredit(id - 1, id, now))
  {
    assert forall id :: id in m ==> 1 <= id < 7;
  }

  // ---------------------------------------------------------------------------
  // The store

  /** `item => item.userId === userId`. */
  function PortfolioOf(userId: int): PortfolioItem -> bool {
    (p: PortfolioItem) => p.userId == userId
  }

  /** `order => order.userId === userId`. */
  function OrderOf(userId: int): Order -> bool {
    (o: Order) => o.userId == userId
  }

  function UserId(u: User): int { u.id }
  function PortfolioItemId(p: PortfolioItem): int { p.id }
  function OrderId(o: Order): int { o.id }
  function ContactRequestId(c: ContactRequest): int { c.id }

  class MemStorage {
    var users: map<int, User>
    var carbonCredits: map<int, CarbonCredit>
    var portfolioItems: map<int, PortfolioItem>
    var orders: map<int, Order>
    var contactRequests: map<int, ContactRequest>
    var currentUserId: int
    var currentCreditId: int
    var currentPortfolioId: int
    var currentOrderId: int
    var currentContactId: int

    /**
     * Every map holds only ids its counter has already issued, so the counter's value is
     * always fresh and no id is issued twice. Users, portfolio items, orders and contact
     * requests are stored under their own id (a credit update may overwrite a credit's `id`).
     */
    ghost predicate Valid()
      reads this
    {
      && IdsBelow(users, currentUserId) && KeyedById(users, UserId)
      && IdsBelow(carbonCredits, currentCreditId)
      && IdsBelow(portfolioItems, currentPortfolioId)
      && KeyedById(portfolioItems, PortfolioItemId)
      && IdsBelow(orders, currentOrderId) && KeyedById(orders, OrderId)
      && IdsBelow(contactRequests, currentContactId)
      && KeyedById(contactRequests, ContactRequestId)
    }

    /** No credit has negative availability. */
    predicate CreditsNonNegative()
      reads this
    {
      AvailableNonNegative(carbonCredits)
    }

    /** A store with the six sample credits (ids 1 to 6) and nothing else. */
    constructor (now: Timestamp)
      ensures Valid() && CreditsNonNegative()
      ensures users == map[] && portfolioItems == map[] && orders == map[] && contactRequests == map[]
      ensures currentUserId == 1 && currentPortfolioId == 1 && currentOrderId == 1 && currentContactId == 1
      ensures carbonCredits.Keys == {1, 2, 3, 4, 5, 6} && currentCreditId == 7
      ensures forall id :: 1 <= id <= 6 ==> GetCarbonCredit(id) == Some(SampleCredit(id - 1, id, now))
    {
      users := map[];
      carbonCredits := map[];
      portfolioItems := map[];
      orders := map[];
      contactRequests := map[];
      currentUserId := 1;
      currentCreditId := 1;
      currentPortfolioId := 1;
      currentOrderId := 1;
      currentContactId := 1;
      new;
      InitializeSampleData(now);
      SamplesOnly(carbonCredits, now);
    }

    /** Inserts the six sample credits under the next six credit ids. */
    method InitializeSampleData(now: Timestamp)
      requires Valid()
      modifies this`carbonCredits, this`currentCreditId
      ensures Valid()
      ensures currentCreditId == old(currentCreditId) + 6
      ensures SamplesInserted(carbonCredits, old(carbonCredits), old(currentCreditId), 6, now)
      ensures old(CreditsNonNegative()) ==> CreditsNonNegative()
    {
      // `initializeSampleData` issues each id with `currentCreditId++` while building the array,
      // then sets the records in that order.
      var first := currentCreditId;
      currentCreditId := first + 6;
      for i := 0 to 6
        invariant currentCreditId == first + 6
        invariant Valid()
        invariant SamplesInserted(carbonCredits, old(carbonCredits), first, i, now)
        invariant old(CreditsNonNegative()) ==> CreditsNonNegative()
      {
        var credit := SampleCredit(i, first + i, now);
        assert credit.id == first + i;
        SampleInsertStep(carbonCredits, old(carbonCredits), first, i, now);
        carbonCredits := carbonCredits[credit.id := credit];
      }
    }

    // Users

    /** `users.get(id)`. */
    function GetUser(id: int): (r: Option<User>)
      reads this
      ensures r.Some? <==> id in users
      ensures r.Some? ==> r.value == users[id]
      ensures r.Some? && Valid() ==> r.value.id == id
    {
      Get(users, id)
    }

    /** The first user, in insertion order, with the given username. */
    function GetUserByUsername(username: string): (r: Option<User>)
      reads this
      requires Valid()
      ensures r.Some? ==> r.value.username == username && GetUser(r.value.id) == r
      ensures r.Some? ==> forall id :: id in users && id < r.value.id ==> users[id].username != username
      ensures r.None? <==> forall id :: id in users ==> users[id].username != username
    {
      var p := (u: User) => u.username == username;
      FindValuesBelow(users, currentUserId, p);
      JsArray.Find(ValuesBelow(users, currentUserId), p)
    }

    /** Stores a new user under the next user id. */
    method CreateUser(insertUser: InsertUser) returns (user: User)
      requires Valid()
      modifies this`users, this`currentUserId
      ensures Valid()
      ensures user == User(old(currentUserId), insertUser.username, insertUser.password)
      ensures currentUserId == old(currentUserId) + 1
      ensures user.id !in old(users)
      ensures users == old(users)[user.id := user]
      ensures GetUser(user.id) == Some(user)
      ensures ValuesBelow(users, currentUserId) == old(ValuesBelow(users, currentUserId)) + [user]
    {
      var id := currentUserId;
      currentUserId := currentUserId + 1;
      user := User(id, insertUser.username, insertUser.password);
      ValuesBelowInsert(users, id, user);
      users := users[id := user];
    }

    // Carbon credits

    /** `getCarbonCredits()`: every stored credit, in insertion order. */
    function GetCarbonCredits(): seq<CarbonCredit>
      reads this
    {
      ValuesBelow(carbonCredits, currentCreditId)
    }

    /**
     * `getCarbonCredits` lists every stored credit once and nothing else, in insertion order:
     * the `i`-th entry is the credit stored under the `i`-th issued id still present.
     */
    lemma CreditsListed()
      requires Valid()
      ensures var r := GetCarbonCredits();
        && (forall i :: 0 <= i < |r| ==> r[i] in carbonCredits.Values)
        && (forall id :: id in carbonCredits ==> carbonCredits[id] in r)
        && |r| == |carbonCredits|
      ensures var r := GetCarbonCredits(); var ks := KeysInOrder(carbonCredits, currentCreditId);
        && |r| == |ks|
        && (forall i :: 0 <= i < |ks| ==> ks[i] in carbonCredits && r[i] == carbonCredits[ks[i]])
        && (forall i, j :: 0 <= i < j < |ks| ==> ks[i] < ks[j])
        && (forall id :: id in ks <==> id in carbonCredits)
    {
      ValuesBelowByKey(carbonCredits, currentCreditId);
      var r := GetCarbonCredits();
      forall i | 0 <= i < |r| ensures r[i] in carbonCredits.Values {
        ValuesBelowStored(carbonCredits, currentCreditId, i);
      }
      forall id | id in carbonCredits ensures carbonCredits[id] in r {
        ValuesBelowListed(carbonCredits, currentCreditId, id);
      }
      ValuesBelowCount(carbonCredits, currentCreditId);
    }

    /** `carbonCredits.get(id)`. */
    function GetCarbonCredit(id: int): (r: Option<CarbonCredit>)
      reads this
      ensures r.Some? <==> id in carbonCredits
      ensures r.Some? ==> r.value == carbonCredits[id]
    {
      Get(carbonCredits, id)
    }

    /** Stores a new credit under the next credit id. */
    method CreateCarbonCredit(insertCredit: InsertCarbonCredit, now: Timestamp) returns (credit: CarbonCredit)
      requires Valid()
      modifies this`carbonCredits, this`currentCreditId
      ensures Valid()
      ensures credit == CarbonCredit(old(currentCreditId), insertCredit.name, insertCredit.description,
        insertCredit.creditType, insertCredit.location, insertCredit.verification, insertCredit.price,
        insertCredit.available, insertCredit.vintage, insertCredit.imageUrl, insertCredit.sellerId, Some(now))
      ensures currentCreditId == old(currentCreditId) + 1
      ensures credit.id !in old(carbonCredits)
      ensures carbonCredits == old(carbonCredits)[credit.id := credit]
      ensures GetCarbonCredit(credit.id) == Some(credit)
      ensures GetCarbonCredits() == old(GetCarbonCredits()) + [credit]
    {
      var id := currentCreditId;
      currentCreditId := currentCreditId + 1;
      credit := CarbonCredit(id, insertCredit.name, insertCredit.description, insertCredit.creditType,
        insertCredit.location, insertCredit.verification, insertCredit.price, insertCredit.available,
        insertCredit.vintage, insertCredit.imageUrl, insertCredit.sellerId, Some(now));
      ValuesBelowInsert(carbonCredits, id, credit);
      carbonCredits := carbonCredits[id := credit];
    }

    /** Merges `updates` into the credit stored under `id`; undefined (None) when there is none. */
    method UpdateCarbonCredit(id: int, updates: CreditUpdates) returns (r: Option<CarbonCredit>)
      requires Valid()
      modifies this`carbonCredits
      ensures Valid()
      ensures old(GetCarbonCredit(id)).None? ==> r.None? && carbonCredits == old(carbonCredits)
      ensures old(GetCarbonCredit(id)).Some? ==>
        && r == Some(ApplyCreditUpdates(old(GetCarbonCredit(id)).value, updates))
        && carbonCredits == old(carbonCredits)[id := r.value]
      ensures carbonCredits.Keys == old(carbonCredits.Keys)
      ensures forall other :: other != id ==> GetCarbonCredit(other) == old(GetCarbonCredit(other))
    {
      var existing := Get(carbonCredits, id);
      if existing.None? {
        return None;
      }
      var updated := ApplyCreditUpdates(existing.value, updates);
      carbonCredits := carbonCredits[id := updated];
      r := Some(updated);
    }

    // Portfolio

    /** The stored portfolio items of `userId`, in insertion order. */
    function GetPortfolioItems(userId: int): (r: seq<PortfolioItem>)
      reads this
      requires Valid()
      ensures forall i :: 0 <= i < |r| ==> r[i].userId == userId && Get(portfolioItems, r[i].id) == Some(r[i])
      ensures forall id :: id in portfolioItems && portfolioItems[id].userId == userId ==> portfolioItems[id] in r
    {
      var all := ValuesBelow(portfolioItems, currentPortfolioId);
      var r := JsArray.Filter(all, PortfolioOf(userId));
      assert forall i :: 0 <= i < |r| ==> Get(portfolioItems, r[i].id) == Some(r[i]) by {
        forall i | 0 <= i < |r| ensures Get(portfolioItems, r[i].id) == Some(r[i]) {
          var j :| 0 <= j < |all| && all[j] == r[i];
          ValuesBelowStored(portfolioItems, currentPortfolioId, j);
        }
      }
      assert forall id :: id in portfolioItems && portfolioItems[id].userId == userId ==> portfolioItems[id] in r by {
        forall id | id in portfolioItems && portfolioItems[id].userId == userId
          ensures portfolioItems[id] in r
        {
          ValuesBelowListed(portfolioItems, currentPortfolioId, id);
          var j :| 0 <= j < |all| && all[j] == portfolioItems[id];
        }
      }
      r
    }

    /** `getPortfolioItems` lists by strictly increasing id: in insertion order, each record once. */
    lemma PortfolioItemsInIdOrder(userId: int)
      requires Valid()
      ensures var r := GetPortfolioItems(userId); forall i, j :: 0 <= i < j < |r| ==> r[i].id < r[j].id
    {
      ValuesBelowIncreasing(portfolioItems, currentPortfolioId, PortfolioItemId);
      JsArray.FilterIncreasing(ValuesBelow(portfolioItems, currentPortfolioId), PortfolioOf(userId), PortfolioItemId);
    }

    /** Stores a new portfolio item under the next portfolio id. */
    method CreatePortfolioItem(insertItem: InsertPortfolioItem, now: Timestamp) returns (item: PortfolioItem)
      requires Valid()
      modifies this`portfolioItems, this`currentPortfolioId
      ensures Valid()
      ensures item == PortfolioItem(old(currentPortfolioId), insertItem.userId, insertItem.creditId,
        insertItem.quantity, insertItem.purchasePrice, now)
      ensures currentPortfolioId == old(currentPortfolioId) + 1
      ensures item.id !in old(portfolioItems)
      ensures portfolioItems == old(portfolioItems)[item.id := item]
      ensures forall u :: GetPortfolioItems(u) == old(GetPortfolioItems(u)) + (if u == item.userId then [item] else [])
    {
      var id := currentPortfolioId;
      currentPortfolioId := currentPortfolioId + 1;
      item := PortfolioItem(id, insertItem.userId, insertItem.creditId, insertItem.quantity,
        insertItem.purchasePrice, now);
      ghost var before := portfolioItems;
      ValuesBelowInsert(portfolioItems, id, item);
      portfolioItems := portfolioItems[id := item];
      assert Valid();
      forall u
        ensures GetPortfolioItems(u) == old(GetPortfolioItems(u)) + (if u == item.userId then [item] else [])
      {
        FilterValuesBelowInsert(before, id, item, PortfolioOf(u));
      }
    }

    // Orders

    /** The stored orders of `userId`, in insertion order. */
    function GetOrders(userId: int): (r: seq<Order>)
      reads this
      requires Valid()
      ensures forall i :: 0 <= i < |r| ==> r[i].userId == userId && Get(orders, r[i].id) == Some(r[i])
      ensures forall id :: id in orders && orders[id].userId == userId ==> orders[id] in r
    {
      var all := ValuesBelow(orders, currentOrderId);
      var r := JsArray.Filter(all, OrderOf(userId));
      assert forall i :: 0 <= i < |r| ==> Get(orders, r[i].id) == Some(r[i]) by {
        forall i | 0 <= i < |r| ensures Get(orders, r[i].id) == Some(r[i]) {
          var j :| 0 <= j < |all| && all[j] == r[i];
          ValuesBelowStored(orders, currentOrderId, j);
        }
      }
      assert forall id :: id in orders && orders[id].userId == userId ==> orders[id] in r by {
        forall id | id in orders && orders[id].userId == userId
          ensures orders[id] in r
        {
          ValuesBelowListed(orders, currentOrderId, id);
          var j :| 0 <= j < |all| && all[j] == orders[id];
        }
      }
      r
    }

    /** `getOrders` lists by strictly increasing id: in insertion order, each record once. */
    lemma OrdersInIdOrder(userId: int)
      requires Valid()
      ensures var r := GetOrders(userId); forall i, j :: 0 <= i < j < |r| ==> r[i].id < r[j].id
    {
      ValuesBelowIncreasing(orders, currentOrderId, OrderId);
      JsArray.FilterIncreasing(ValuesBelow(orders, currentOrderId), OrderOf(userId), OrderId);
    }

    /** Stores a new pending order under the next order id, with its delivery date set by its duration. */
    method CreateOrder(insertOrder: InsertOrder, now: Timestamp) returns (order: Order)
      requires Valid()
      modifies this`orders, this`currentOrderId
      ensures Valid()
      ensures order == NewOrder(old(currentOrderId), insertOrder, now)
      ensures order.status == "pending"
      ensures order.deliveryDate == DeliveryDate(now, DeliveryOffset(insertOrder.duration))
      ensures currentOrderId == old(currentOrderId) + 1
      ensures order.id !in old(orders)
      ensures orders == old(orders)[order.id := order]
      ensures Get(orders, order.id) == Some(order)
      ensures forall u :: GetOrders(u) == old(GetOrders(u)) + (if u == order.userId then [order] else [])
    {
      var id := currentOrderId;
      currentOrderId := currentOrderId + 1;
      order := NewOrder(id, insertOrder, now);
      ghost var before := orders;
      ValuesBelowInsert(orders, id, order);
      orders := orders[id := order];
      assert Valid();
      forall u
        ensures GetOrders(u) == old(GetOrders(u)) + (if u == order.userId then [order] else [])
      {
        FilterValuesBelowInsert(before, id, order, OrderOf(u));
      }
    }

    /** Sets the status of the order stored under `id`; undefined (None) when there is none. */
    method UpdateOrderStatus(id: int, status: string) returns (r: Option<Order>)
      requires Valid()
      modifies this`orders
      ensures Valid()
      ensures old(Get(orders, id)).None? ==> r.None? && orders == old(orders)
      ensures old(Get(orders, id)).Some? ==>
        && r == Some(old(orders[id]).(status := status))
        && orders == old(orders)[id := r.value]
      ensures orders.Keys == old(orders.Keys)
      ensures forall other :: other != id ==> Get(orders, other) == old(Get(orders, other))
    {
      var existing := Get(orders, id);
      if existing.None? {
        return None;
      }
      var updated := existing.value.(status := status);
      orders := orders[id := updated];
      r := Some(updated);
    }

    // Contact requests

    /** Stores a new contact request under the next contact id; a missing or empty company becomes null. */
    method CreateContactRequest(insertRequest: InsertContactRequest, now: Timestamp) returns (request: ContactRequest)
      requires Valid()
      modifies this`contactRequests, this`currentContactId
      ensures Valid()
      ensures request == ContactRequest(old(currentContactId), insertRequest.firstName, insertRequest.lastName,
        insertRequest.email, StoredCompany(insertRequest.company), insertRequest.interest, insertRequest.message, now)
      ensures currentContactId == old(currentContactId) + 1
      ensures request.id !in old(contactRequests)
      ensures contactRequests == old(contactRequests)[request.id := request]
      ensures Get(contactRequests, request.id) == Some(request)
    {
      var id := currentContactId;
      currentContactId := currentContactId + 1;
      request := ContactRequest(id, insertRequest.firstName, insertRequest.lastName, insertRequest.email,
        StoredCompany(insertRequest.company), insertRequest.interest, insertRequest.message, now);
      ValuesBelowInsert(contactRequests, id, request);
      contactRequests := contactRequests[id := request];
    }
  }
}
