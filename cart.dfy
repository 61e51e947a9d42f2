/**
 * The shopping cart of client/src/hooks/use-cart.ts. Each operation is a state updater
 * that takes the previous list of cart items and returns a new one. Items are matched by
 * their credit's id.
 */
module Cart {
  import opened Schema
  import opened JsArray

  datatype CartItem = CartItem(credit: CarbonCredit, quantity: int, duration: string)

  /** `item => item.credit.id === creditId`. */
  function SameCredit(creditId: int): CartItem -> bool {
    (item: CartItem) => item.credit.id == creditId
  }

  /** `item => item.credit.id !== creditId`. */
  function OtherCredit(creditId: int): CartItem -> bool {
    (item: CartItem) => item.credit.id != creditId
  }

  /** No two items in the cart carry the same credit id. */
  predicate DistinctIds(cart: seq<CartItem>) {
    forall i, j :: 0 <= i < j < |cart| ==> cart[i].credit.id != cart[j].credit.id
  }

  /** Every item's quantity is at least 1. */
  predicate QuantitiesPositive(cart: seq<CartItem>) {
    forall i :: 0 <= i < |cart| ==> cart[i].quantity >= 1
  }

  /** The credit ids in the cart, position by position. */
  function CreditIds(cart: seq<CartItem>): (r: seq<int>)
    ensures |r| == |cart| && forall i :: 0 <= i < |cart| ==> r[i] == cart[i].credit.id
  {
    seq(|cart|, i requires 0 <= i < |cart| => cart[i].credit.id)
  }

  /** The set of credit ids in the cart. */
  function CreditIdSet(cart: seq<CartItem>): set<int> {
    set i | 0 <= i < |cart| :: cart[i].credit.id
  }

  /** `Math.max(1, quantity)`. */
  function AtLeastOne(quantity: int): (r: int)
    ensures r >= 1
    ensures quantity >= 1 ==> r == quantity
    ensures quantity < 1 ==> r == 1
  {
    if quantity > 1 then quantity else 1
  }

  /** Position `k` holds the first item carrying `creditId`. */
  predicate FirstWithId(cart: seq<CartItem>, k: int, creditId: int) {
    && 0 <= k < |cart| && cart[k].credit.id == creditId
    && forall j :: 0 <= j < k ==> cart[j].credit.id != creditId
  }

  /**
   * `addToCart`: for a credit already in the cart, add the quantity to the first item carrying
   * its id and keep that item's credit and duration; otherwise append a new item.
   */
  function AddToCart(cart: seq<CartItem>, credit: CarbonCredit, quantity: int := 1, duration: string := "immediate"): (r: seq<CartItem>)
    ensures (forall i :: 0 <= i < |cart| ==> cart[i].credit.id != credit.id) ==>
      r == cart + [CartItem(credit, quantity, duration)]
    ensures forall k :: FirstWithId(cart, k, credit.id) ==>
      r == cart[k := cart[k].(quantity := cart[k].quantity + quantity)]
  {
    var same := SameCredit(credit.id);
    var existingIndex := FindIndex(cart, same);
    assert forall j :: 0 <= j < |cart| ==> (same(cart[j]) <==> cart[j].credit.id == credit.id);
    if existingIndex >= 0 then
      cart[existingIndex := cart[existingIndex].(quantity := cart[existingIndex].quantity + quantity)]
    else
      cart + [CartItem(credit, quantity, duration)]
  }

  /** `removeFromCart`: drop every item carrying the id, keeping the rest in order. */
  function RemoveFromCart(cart: seq<CartItem>, creditId: int): (r: seq<CartItem>)
    ensures |r| <= |cart|
    ensures forall i :: 0 <= i < |r| ==> r[i].credit.id != creditId && r[i] in cart
    ensures forall j :: 0 <= j < |cart| && cart[j].credit.id != creditId ==> cart[j] in r
  {
    Filter(cart, OtherCredit(creditId))
  }

  /** `updateQuantity`: every item carrying the id gets quantity `max(1, quantity)`. */
  function UpdateQuantity(cart: seq<CartItem>, creditId: int, quantity: int): (r: seq<CartItem>)
    ensures |r| == |cart| && CreditIds(r) == CreditIds(cart)
    ensures forall i :: 0 <= i < |cart| ==>
      && r[i].credit == cart[i].credit && r[i].duration == cart[i].duration
      && (cart[i].credit.id == creditId ==> r[i].quantity == AtLeastOne(quantity))
      && (cart[i].credit.id != creditId ==> r[i] == cart[i])
  {
    Map(cart, (item: CartItem) => if item.credit.id == creditId then item.(quantity := AtLeastOne(quantity)) else item)
  }

  /** `updateDuration`: every item carrying the id gets the new duration. */
  function UpdateDuration(cart: seq<CartItem>, creditId: int, duration: string): (r: seq<CartItem>)
    ensures |r| == |cart| && CreditIds(r) == CreditIds(cart)
    ensures forall i :: 0 <= i < |cart| ==>
      && r[i].credit == cart[i].credit && r[i].quantity == cart[i].quantity
      && (cart[i].credit.id == creditId ==> r[i].duration == duration)
      && (cart[i].credit.id != creditId ==> r[i] == cart[i])
  {
    Map(cart, (item: CartItem) => if item.credit.id == creditId then item.(duration := duration) else item)
  }

  /** `clearCart`. */
  function ClearCart(): (r: seq<CartItem>)
    ensures |r| == 0
  {
    []
  }

  /** `getCartItemCount`: the number of items, one per distinct credit when ids are distinct. */
  function GetCartItemCount(cart: seq<CartItem>): (r: nat)
    ensures DistinctIds(cart) ==> r == |CreditIdSet(cart)|
  {
    DistinctCount(cart);
    |cart|
  }

  lemma {:induction false} DistinctCount(cart: seq<CartItem>)
    ensures DistinctIds(cart) ==> |CreditIdSet(cart)| == |cart|
  {
    if cart != [] && DistinctIds(cart) {
      var init := cart[..|cart| - 1];
      CreditIdSetLast(cart);
      DistinctLast(cart);
      DistinctCount(init);
    }
  }

  /** The id set of a non-empty cart is the id set of its front plus the last item's id. */
  lemma CreditIdSetLast(cart: seq<CartItem>)
    requires cart != []
    ensures CreditIdSet(cart) == CreditIdSet(cart[..|cart| - 1]) + {cart[|cart| - 1].credit.id}
  {
    var init := cart[..|cart| - 1];
    forall id | id in CreditIdSet(cart) ensures id in CreditIdSet(init) + {cart[|cart| - 1].credit.id} {
      var i :| 0 <= i < |cart| && cart[i].credit.id == id;
      if i < |cart| - 1 { assert init[i] == cart[i]; }
    }
    forall id | id in CreditIdSet(init) ensures id in CreditIdSet(cart) {
      var i :| 0 <= i < |init| && init[i].credit.id == id;
      assert cart[i] == init[i];
    }
  }

  /** In a cart with distinct ids, the front has distinct ids and lacks the last item's id. */
  lemma DistinctLast(cart: seq<CartItem>)
    requires cart != [] && DistinctIds(cart)
    ensures DistinctIds(cart[..|cart| - 1])
    ensures cart[|cart| - 1].credit.id !in CreditIdSet(cart[..|cart| - 1])
  {
    var init := cart[..|cart| - 1];
    forall i | 0 <= i < |init| ensures init[i].credit.id != cart[|cart| - 1].credit.id {
      assert init[i] == cart[i];
    }
  }

  // ---------------------------------------------------------------------------
  // What each operation keeps

  lemma AddToCartKeepsDistinct(cart: seq<CartItem>, credit: CarbonCredit, quantity: int, duration: string)
    requires DistinctIds(cart)
    ensures DistinctIds(AddToCart(cart, credit, quantity, duration))
  {
    var r := AddToCart(cart, credit, quantity, duration);
    if exists i :: 0 <= i < |cart| && cart[i].credit.id == credit.id {
      assert CreditIds(r) == CreditIds(cart);
    } else {
      assert forall i :: 0 <= i < |cart| ==> r[i] == cart[i];
    }
  }

  lemma AddToCartKeepsPositive(cart: seq<CartItem>, credit: CarbonCredit, quantity: int, duration: string)
    requires QuantitiesPositive(cart) && quantity >= 1
    ensures QuantitiesPositive(AddToCart(cart, credit, quantity, duration))
  {
    var r := AddToCart(cart, credit, quantity, duration);
    assert r[|r| - 1].quantity >= 1;
  }

  /**
   * With distinct ids, adding a credit already in the cart changes exactly that item: its
   * quantity grows by `quantity`, its credit and duration stay, and the positions stay.
   */
  lemma AddToCartExisting(cart: seq<CartItem>, credit: CarbonCredit, quantity: int, duration: string, k: int)
    requires DistinctIds(cart) && 0 <= k < |cart| && cart[k].credit.id == credit.id
    ensures var r := AddToCart(cart, credit, quantity, duration);
      && |r| == |cart|
      && r[k] == CartItem(cart[k].credit, cart[k].quantity + quantity, cart[k].duration)
      && forall j :: 0 <= j < |cart| && j != k ==> r[j] == cart[j]
  {
  }

  lemma {:induction false} FilterKeepsDistinct(cart: seq<CartItem>, p: CartItem -> bool)
    requires DistinctIds(cart)
    ensures DistinctIds(Filter(cart, p))
  {
    if cart != [] {
      var init := cart[..|cart| - 1];
      var last := cart[|cart| - 1];
      assert DistinctIds(init);
      FilterKeepsDistinct(init, p);
      var kept := Filter(init, p);
      forall i | 0 <= i < |kept| ensures kept[i].credit.id != last.credit.id {
        var j :| 0 <= j < |init| && init[j] == kept[i];
        assert init[j] == cart[j];
      }
    }
  }

  lemma RemoveFromCartKeepsDistinct(cart: seq<CartItem>, creditId: int)
    requires DistinctIds(cart)
    ensures DistinctIds(RemoveFromCart(cart, creditId))
  {
    FilterKeepsDistinct(cart, OtherCredit(creditId));
  }

  /** Removing works part by part, so the items left keep their relative order. */
  lemma RemoveFromCartAppend(a: seq<CartItem>, b: seq<CartItem>, creditId: int)
    ensures RemoveFromCart(a + b, creditId) == RemoveFromCart(a, creditId) + RemoveFromCart(b, creditId)
  {
    FilterAppend(a, b, OtherCredit(creditId));
  }

  /** Removing an id the cart does not hold leaves it unchanged. */
  lemma RemoveAbsent(cart: seq<CartItem>, creditId: int)
    requires forall i :: 0 <= i < |cart| ==> cart[i].credit.id != creditId
    ensures RemoveFromCart(cart, creditId) == cart
  {
    FilterAll(cart, OtherCredit(creditId));
  }

  /** Adding a new credit and then removing it gives back the cart. */
  lemma AddThenRemove(cart: seq<CartItem>, credit: CarbonCredit, quantity: int, duration: string)
    requires forall i :: 0 <= i < |cart| ==> cart[i].credit.id != credit.id
    ensures RemoveFromCart(AddToCart(cart, credit, quantity, duration), credit.id) == cart
  {
    var item := CartItem(credit, quantity, duration);
    RemoveFromCartAppend(cart, [item], credit.id);
    RemoveAbsent(cart, credit.id);
    FilterNone([item], OtherCredit(credit.id));
  }

  lemma UpdateQuantityKeepsInvariants(cart: seq<CartItem>, creditId: int, quantity: int)
    ensures DistinctIds(cart) ==> DistinctIds(UpdateQuantity(cart, creditId, quantity))
    ensures QuantitiesPositive(cart) ==> QuantitiesPositive(UpdateQuantity(cart, creditId, quantity))
  {
    var r := UpdateQuantity(cart, creditId, quantity);
    assert forall i :: 0 <= i < |cart| ==> r[i].credit.id == CreditIds(r)[i];
  }

  lemma UpdateDurationKeepsInvariants(cart: seq<CartItem>, creditId: int, duration: string)
    ensures DistinctIds(cart) ==> DistinctIds(UpdateDuration(cart, creditId, duration))
    ensures QuantitiesPositive(cart) ==> QuantitiesPositive(UpdateDuration(cart, creditId, duration))
  {
    var r := UpdateDuration(cart, creditId, duration);
    assert forall i :: 0 <= i < |cart| ==> r[i].credit.id == CreditIds(r)[i];
  }

  // ---------------------------------------------------------------------------
  // Any sequence of updates

  /** One call of the hook's operations that changes the cart. */
  datatype CartAction =
    | Add(credit: CarbonCredit, quantity: int, duration: string)
    | Remove(creditId: int)
    | SetQuantity(creditId: int, quantity: int)
    | SetDuration(creditId: int, duration: string)
    | Clear

  function Apply(cart: seq<CartItem>, action: CartAction): seq<CartItem> {
    match action
    case Add(credit, quantity, duration) => AddToCart(cart, credit, quantity, duration)
    case Remove(creditId) => RemoveFromCart(cart, creditId)
    case SetQuantity(creditId, quantity) => UpdateQuantity(cart, creditId, quantity)
    case SetDuration(creditId, duration) => UpdateDuration(cart, creditId, duration)
    case Clear => ClearCart()
  }

  /** The cart after the actions, applied first to last. */
  function ApplyAll(cart: seq<CartItem>, actions: seq<CartAction>): seq<CartItem>
    decreases |actions|
  {
    if actions == [] then cart else ApplyAll(Apply(cart, actions[0]), actions[1..])
  }

  /** Add-only quantities of at least 1 keep every quantity at least 1. */
  predicate AddsPositive(actions: seq<CartAction>) {
    forall i :: 0 <= i < |actions| && actions[i].Add? ==> actions[i].quantity >= 1
  }

  lemma ApplyKeepsInvariants(cart: seq<CartItem>, action: CartAction)
    ensures DistinctIds(cart) ==> DistinctIds(Apply(cart, action))
    ensures QuantitiesPositive(cart) && (action.Add? ==> action.quantity >= 1) ==>
      QuantitiesPositive(Apply(cart, action))
  {
    match action
    case Add(credit, quantity, duration) =>
      if DistinctIds(cart) { AddToCartKeepsDistinct(cart, credit, quantity, duration); }
      if QuantitiesPositive(cart) && quantity >= 1 { AddToCartKeepsPositive(cart, credit, quantity, duration); }
    case Remove(creditId) =>
      if DistinctIds(cart) { RemoveFromCartKeepsDistinct(cart, creditId); }
    case SetQuantity(creditId, quantity) =>
      UpdateQuantityKeepsInvariants(cart, creditId, quantity);
    case SetDuration(creditId, duration) =>
      UpdateDurationKeepsInvariants(cart, creditId, duration);
    case Clear =>
  }

  /**
   * Starting from a cart with distinct ids, every sequence of operations keeps them
   * distinct; with positive quantities and only positive adds, quantities stay positive.
   */
  lemma {:induction false} ApplyAllKeepsInvariants(cart: seq<CartItem>, actions: seq<CartAction>)
    ensures DistinctIds(cart) ==> DistinctIds(ApplyAll(cart, actions))
    ensures QuantitiesPositive(cart) && AddsPositive(actions) ==> QuantitiesPositive(ApplyAll(cart, actions))
    decreases |actions|
  {
    if actions != [] {
      ApplyKeepsInvariants(cart, actions[0]);
      assert AddsPositive(actions) ==> AddsPositive(actions[1..]) by {
        if AddsPositive(actions) {
          forall i | 0 <= i < |actions[1..]| && actions[1..][i].Add? ensures actions[1..][i].quantity >= 1 {
            assert actions[1..][i] == actions[i + 1];
          }
        }
      }
      if AddsPositive(actions) { assert actions[0].Add? ==> actions[0].quantity >= 1; }
      ApplyAllKeepsInvariants(Apply(cart, actions[0]), actions[1..]);
    }
  }
}
