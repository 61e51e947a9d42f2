# CarbonXchange core, modelled in Dafny

CarbonXchange is a demo storefront for carbon credits. Its logic lives in three places, and each is a Dafny module here:

- **The in-memory entity store** (`Storage`, from server/storage.ts). `MemStorage` keeps five maps keyed by id: users, carbon credits, portfolio items, orders and contact requests. Each map has its own id counter, which starts at 1.
  - Every insert takes the counter's value as the new record's id and advances the counter by one.
  - Updates merge fields into an existing record. They answer `undefined` when the id is missing.
  - Per-user queries filter the stored records by `userId`, in insertion order.
  - `createOrder` always stores status `"pending"`. It derives the delivery date from the order's duration code.
  - The model is a Dafny `class` whose fields are `map`s and counters. Each method says, with field-granular `modifies` clauses, which fields it may change.
- **The HTTP handlers** (`Routes`, from server/routes.ts). A handler becomes a function from the store to a `Response` (a status and a body) when it only reads. It becomes a method on the store when it writes.
  - `POST /api/orders` validates the body and always creates the order.
  - Only after that does it lower the credit's `available` by the order's quantity, and only when the credit exists and has at least that many available.
  - Nothing undoes the order when the decrement does not happen.
- **The shopping cart** (`Cart`, from client/src/hooks/use-cart.ts). Each hook operation is a pure function from the previous list of cart items to the next.

Supporting modules:

- `Options`: the `Option` type.
- `Schema`: the record shapes of shared/schema.ts.
- `JsArray`: `findIndex`, `find`, `filter` and `map`, with their contracts.
- `IdMaps`: id-keyed maps and their enumeration in insertion order.

A JavaScript `Map` enumerates its values in insertion order. In this store every key comes from a counter that only grows, and nothing is ever deleted, so insertion order is ascending id order. `IdMaps.ValuesBelow(m, next)` is that enumeration: the values under ids 1 to `next - 1`. `getCarbonCredits()` is `ValuesBelow` of the credit map, and `getCarbonCredit(id)` and `getUser(id)` are `IdMaps.Get`. The rows for the `IdMaps.ValuesBelow*` lemmas state what the enumeration promises, and the `Routes.SumAvailable*` rows do the same for the `SumAvailable` fold.

The environment is passed in as parameters:

- **The clock** is a `now: Timestamp` argument.
- **Request validation.** The schema parser (`insertOrderSchema.parse`, `insertContactRequestSchema.parse`) is a function argument `validate: Json -> Option<...>`. `None` stands for a thrown validation error.
- **`parseInt`** of a path parameter is taken as its result: `Option<int>`, where `None` is NaN.
- **A delivery date** is `DeliveryDate(from, offset)`, with `offset` either `Days(n)` or `Years(n)`. No calendar arithmetic is done.

## Model

| member | source | states |
|---|---|---|
| Storage.DeliveryOffset | server/storage.ts:231-250 | "immediate" gives +1 day. "1-year", "2-year", "5-year" and "10-year" give +1, +2, +5 and +10 years. Any other code, or none, gives +7 days. A year offset appears exactly for those four codes, and +1 day only for "immediate". |
| Storage.NewOrder | server/storage.ts:252-258 | The stored order has the given id and status "pending". Its delivery date is the offset of its duration from now. Every field of the payload is copied unchanged. |
| Storage.StoredCompany | server/storage.ts:278 | The stored company is null exactly when the given one is absent or empty, and is the given value otherwise. |
| Storage.ApplyCreditUpdates | server/storage.ts:201 | Merging takes `available` from the update when it is present and keeps it otherwise. The update `{ available: n }` changes nothing but `available`. |
| Storage.SampleData | server/storage.ts:67-154 | Each of the six sample credits starts with positive availability. |
| Storage.SampleCredit | server/storage.ts:69-153 | A sample credit is stored under the id it was issued and stamped with the clock reading. |
| Storage.MemStorage.constructor | server/storage.ts:51-65 | A new store holds exactly the six sample credits under ids 1 to 6, and the credit counter is 7. The other four maps are empty with counters at 1. No credit has negative availability. |
| Storage.MemStorage.InitializeSampleData | server/storage.ts:67-158 | The six sample credits are set under the next six credit ids, in order. Lower ids are untouched, and the counter advances by six. |
| Storage.MemStorage.GetUser | server/storage.ts:162-164 | The lookup finds a user exactly when one is stored under the id, returns that record, and the record carries that id. |
| Storage.MemStorage.GetUserByUsername | server/storage.ts:166-168 | The result is the stored user with that username and the lowest id, which is the first in insertion order. It is undefined exactly when no stored user has that username. |
| Storage.MemStorage.CreateUser | server/storage.ts:170-175 | The new user gets the counter's old value, which is not yet in use, and the counter advances by one. The map gains exactly that entry, and the user appears last in the enumeration. |
| Storage.MemStorage.CreditsListed | server/storage.ts:178-180 | `getCarbonCredits()` lists only stored credits and every stored credit, as many entries as the map has. Its `i`-th entry is the credit under the `i`-th stored id in ascending order. That is insertion order, with each stored entry once, even when two stored credits are equal records. |
| Storage.MemStorage.GetCarbonCredit | server/storage.ts:182-184 | The lookup finds a credit exactly when one is stored under the id, and returns that record. |
| Storage.MemStorage.CreateCarbonCredit | server/storage.ts:186-195 | The new credit is the payload with the issued id and `createdAt` set to now. The id is fresh, the counter advances by one, the lookup of the id returns the credit, and the credit list gains it at the end. |
| Storage.MemStorage.UpdateCarbonCredit | server/storage.ts:197-204 | For a missing id the result is undefined and nothing changes. Otherwise the stored record becomes the merge and is returned. The set of ids stays the same and no other id changes. |
| Storage.MemStorage.GetPortfolioItems | server/storage.ts:207-209 | Every item returned belongs to the user and is stored under its id. Every stored item of the user is returned. |
| Storage.MemStorage.PortfolioItemsInIdOrder | server/storage.ts:207-209 | The user's items come by strictly increasing id. That is insertion order, and no item appears twice. Together with `GetPortfolioItems`, this fixes the list exactly. |
| Storage.MemStorage.CreatePortfolioItem | server/storage.ts:211-220 | The new item gets a fresh id from its counter and the purchase date now. Every user's list is unchanged, except the owner's, which gains the item at the end. |
| Storage.MemStorage.GetOrders | server/storage.ts:223-225 | Every order returned belongs to the user and is stored under its id. Every stored order of the user is returned. |
| Storage.MemStorage.OrdersInIdOrder | server/storage.ts:223-225 | The user's orders come by strictly increasing id. That is insertion order, and no order appears twice. Together with `GetOrders`, this fixes the list exactly. |
| Storage.MemStorage.CreateOrder | server/storage.ts:227-261 | The new order is pending, has the delivery date its duration selects, and gets a fresh id; the counter advances by one. The lookup returns the order. Every user's order list is unchanged, except the owner's, which gains the order at the end. |
| Storage.MemStorage.UpdateOrderStatus | server/storage.ts:263-270 | For a missing id the result is undefined and nothing changes. Otherwise only that order's status changes, and no other order changes. |
| Storage.MemStorage.CreateContactRequest | server/storage.ts:273-283 | The request gets a fresh id and the counter advances by one. The company is stored as `StoredCompany` gives it, and the lookup returns the request. |
| Storage.SamplesOnly | server/storage.ts:67-158 | The six samples inserted into the empty map from id 1 leave exactly the keys 1 to 6, with the `k`-th sample under id `k + 1`. |
| IdMaps.Get | server/storage.ts:183 | `map.get(k)` finds a value exactly when `k` is a key, and that value is the one stored. |
| IdMaps.ValuesBelowInsert | server/storage.ts:173 | Setting a value under a key that is not yet issued appends it to the enumeration, and the key bound grows by one. |
| IdMaps.ValuesBelowStored | server/storage.ts:179 | Every enumerated value is stored under some id. |
| IdMaps.ValuesBelowListed | server/storage.ts:179 | Every stored value with an issued id is enumerated. |
| IdMaps.ValuesBelowLength | server/storage.ts:179 | The enumeration has one value per key below the bound. |
| IdMaps.ValuesBelowCount | server/storage.ts:179 | When every key was issued below the bound, the enumeration is as long as the map. |
| IdMaps.ValuesBelowIncreasing | server/storage.ts:208 | When records are stored under their own ids, the enumeration lists them by strictly increasing id, all below the bound. |
| IdMaps.ValuesBelowByKey | server/storage.ts:179 | The enumeration reads the map along its keys below the bound, in strictly ascending order: position `i` holds the value under the `i`-th key, and those keys are exactly the stored keys below the bound. This fixes order and multiplicity whatever the values are. |
| IdMaps.FilterValuesBelowInsert | server/storage.ts:224 | After an insert under the counter, the filtered enumeration is the old one, plus the new record at the end if it passes. |
| IdMaps.FindValuesBelow | server/storage.ts:167 | `find` over the enumeration returns the match with the lowest id, and finds nothing exactly when no stored value matches. |
| JsArray.FindIndex | client/src/hooks/use-cart.ts:15 | The result is the first position that matches, or -1 exactly when nothing matches. |
| JsArray.Find | server/storage.ts:167 | The result is the first element that matches, or undefined exactly when nothing matches. |
| JsArray.Filter | server/storage.ts:208 | Every element kept is from the input and passes the test. Every element that passes is kept. |
| JsArray.Map | client/src/hooks/use-cart.ts:38-40 | The result has the same length, and each position holds `f` of the input at that position. |
| JsArray.FindAppend | server/storage.ts:167 | `find` over a concatenation looks in the second part only when the first part has no match. |
| JsArray.FilterAppend | server/storage.ts:224 | Filtering distributes over concatenation, so the kept elements stay in their original order. |
| JsArray.FilterIncreasing | server/storage.ts:224 | Filtering a sequence whose ids strictly increase leaves one whose ids strictly increase. |
| Routes.SumAvailableAppend | server/routes.ts:93 | `SumAvailable` is the `reduce` fold of `available` from 0. Its total over a concatenation is the sum of the two totals. |
| Routes.SumAvailableNonNegative | server/routes.ts:93 | When no credit is below zero, the total is not below zero. |
| Routes.SumAvailableAfterSet | server/routes.ts:41-43 | Replacing one stored credit changes the total by the difference between the new and old availability. |
| Routes.StoredTotalNonNegative | server/routes.ts:92-93 | When no stored credit is below zero, the total over `getCarbonCredits()` is not below zero. |
| Routes.MarketStats | server/routes.ts:90-107 | The status is 200. `totalCredits`, before formatting, is the sum of `available` over all stored credits, and it is not negative when no credit is. The two literal counts are "15,200" and "3,840". |
| Routes.ListCarbonCredits | server/routes.ts:9-16 | The status is 200. Each listed credit is stored, each stored credit is listed, and the list is as long as the map. Position `i` holds the credit under the `i`-th stored id in ascending order, which is insertion order. |
| Routes.GetCarbonCreditById | server/routes.ts:19-30 | The status is 404, with "Carbon credit not found", exactly when the parsed id is NaN or names no stored credit. Otherwise it is 200 with the stored credit. |
| Routes.ListOrders | server/routes.ts:56-63 | The status is 200. The result holds only stored orders of user 1 and all of them, by strictly increasing id: insertion order, each once. |
| Routes.ListPortfolio | server/routes.ts:66-73 | The status is 200. The result holds only stored portfolio items of user 1 and all of them, by strictly increasing id: insertion order, each once. |
| Routes.PostOrder | server/routes.ts:33-53 | Invalid data gives 400 "Invalid order data" and leaves the store unchanged. Valid data always adds exactly one pending order under a fresh id and answers 201 with it. The credit's `available` drops by the quantity exactly when the credit exists and has at least that much; otherwise no credit changes. The total drops by that amount, no other credit changes, and no credit becomes negative if none was. |
| Routes.PostContact | server/routes.ts:76-87 | Invalid data gives 400 "Invalid contact data" and stores nothing. Valid data gives 201 with the success message and the new request's id, which is fresh, and the counter advances by one. The map becomes the old map plus exactly that request: the validated fields, the company normalised, and the clock reading. |
| Cart.AtLeastOne | client/src/hooks/use-cart.ts:39 | `Math.max(1, q)` equals `q` when `q` is at least 1, and 1 otherwise. |
| Cart.AddToCart | client/src/hooks/use-cart.ts:13-30 | A credit id not in the cart appends one item with the given quantity and duration (defaults 1 and "immediate"). Otherwise only the first item with that id changes: its quantity grows by the amount, and its credit and duration stay. |
| Cart.AddToCartExisting | client/src/hooks/use-cart.ts:15-24 | When ids are distinct, adding a credit already in the cart keeps the length. That item's quantity grows by the amount, its credit and duration stay, and every other item stays. |
| Cart.AddToCartKeepsDistinct | client/src/hooks/use-cart.ts:15-27 | Adding keeps the credit ids pairwise distinct. |
| Cart.AddToCartKeepsPositive | client/src/hooks/use-cart.ts:22-27 | Adding a quantity of at least 1 keeps every quantity at least 1. |
| Cart.RemoveFromCart | client/src/hooks/use-cart.ts:32-34 | No item with that id remains. Every item with another id remains, and nothing else is added. |
| Cart.RemoveFromCartAppend | client/src/hooks/use-cart.ts:33 | Removing works part by part, so the remaining items keep their relative order. |
| Cart.RemoveAbsent | client/src/hooks/use-cart.ts:33 | Removing an id that is not in the cart leaves the cart unchanged. |
| Cart.FilterKeepsDistinct | client/src/hooks/use-cart.ts:33 | Filtering a cart with distinct ids keeps them distinct. |
| Cart.RemoveFromCartKeepsDistinct | client/src/hooks/use-cart.ts:33 | Removing keeps the credit ids pairwise distinct. |
| Cart.AddThenRemove | client/src/hooks/use-cart.ts:13-34 | Adding a credit not in the cart and then removing it gives back the original cart. |
| Cart.UpdateQuantity | client/src/hooks/use-cart.ts:36-42 | The length and the id at every position stay the same. Matching items get quantity `max(1, q)`. Their credit and duration stay, and every other item is unchanged. |
| Cart.UpdateQuantityKeepsInvariants | client/src/hooks/use-cart.ts:36-42 | Setting a quantity keeps ids distinct and keeps every quantity at least 1, whatever `q` is. |
| Cart.UpdateDuration | client/src/hooks/use-cart.ts:44-50 | The length and the id at every position stay the same. Matching items get the new duration, keeping their credit and quantity, and every other item is unchanged. |
| Cart.UpdateDurationKeepsInvariants | client/src/hooks/use-cart.ts:44-50 | Setting a duration keeps ids distinct and keeps quantities positive. |
| Cart.ClearCart | client/src/hooks/use-cart.ts:52-54 | Clearing gives the empty cart. |
| Cart.GetCartItemCount | client/src/hooks/use-cart.ts:62-64 | When ids are distinct, the count is the number of distinct credits in the cart, not the sum of quantities. |
| Cart.DistinctCount | client/src/hooks/use-cart.ts:62-64 | When ids are distinct, the number of items equals the number of distinct credit ids. |
| Cart.ApplyKeepsInvariants | client/src/hooks/use-cart.ts:13-54 | Every hook operation keeps ids distinct. Every hook operation keeps quantities at least 1, provided an add uses a quantity of at least 1. |
| Cart.ApplyAllKeepsInvariants | client/src/hooks/use-cart.ts:11-54 | From a cart with distinct ids, any sequence of operations keeps them distinct. From positive quantities, any sequence whose adds are all positive keeps every quantity at least 1. |

**The order handler's guarantee.** The decrement is checked against the quantity but not against the quantity's sign. A negative quantity passes the check and raises availability. The contract of `Routes.PostOrder` states this exactly as the code does.

**The order schema.** The `orders` table in shared/schema.ts has no `unitPrice`, `duration` or `deliveryDate` column, and `insertOrderSchema` is derived from that table. Whether the parser keeps a `duration` key is not modelled: `InsertOrder.duration` is an `Option`, and `Storage.DeliveryOffset` maps an absent one to +7 days, as the `default` branch does.

## Left out

- Floating point and string formatting are left out, because they are float arithmetic and formatting rather than bookkeeping. This covers:
  - `getCartTotal` (`parseFloat(price) * quantity`);
  - the `Math.floor(totalCredits * 0.36)` offset;
  - the `toFixed` "M" and "K" strings of the market stats;
  - prices, which are kept as decimal strings.
- Routes.MarketStats: `totalCredits` is the integer sum before its `toFixed(1)` "M" formatting. The response's `carbonOffset` field is not modelled.
- Calendar arithmetic in JS `Date` is not modelled. `setDate` and `setFullYear` rollovers are left out, and a delivery date is an offset from the clock reading.
- Storage.SampleCredit: `initializeSampleData` reads `new Date()` once for each of the six sample credits. The model stamps all six with one clock reading.
- Storage.MemStorage.CreateOrder: `createOrder` reads the clock twice, once for the delivery date and once for `createdAt`. The model uses one reading for both.
- JavaScript numbers are modelled as unbounded integers. NaN, fractional quantities and values beyond 2^53 are not modelled. `parseInt` is taken as its result.
- The schema parser is a parameter. This leaves out what it accepts, the key stripping it does, and its `details` list in the 400 body.
- Storage.ApplyCreditUpdates: an update field is either absent or has a value. A key that is present with the value `undefined`, which the object spread would copy, is not modelled. Its contract states only the `available` field; the other fields follow the same merge.
- The 500 catch-all branches are not modelled: no store operation in the model throws. The async/`Promise` plumbing, Express and the HTTP server are not modelled either, because handlers run one at a time to completion.
- React state (`useState`, `useCallback`), the cart context, every page and component, and the chart wrappers are left out. They are rendering or foreign libraries; the cart's updaters are modelled as the functions they pass to `setCartItems`.
- The Drizzle table declarations are used only for field shapes. The `type` column of a carbon credit is named `creditType`, because `type` is a Dafny keyword.
