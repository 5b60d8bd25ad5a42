# Food-ordering storefront core, modelled in Dafny

This project models the state logic of a React/Redux food-ordering storefront:

- **the cart slice**: an ordered list of cart lines with two derived aggregates, `total` and `itemCount`, and the reducers `addToCart`, `removeFromCart`, `updateQuantity` and `clearCart`;
- **the order slice**: `loading`, `error`, `currentOrder` and the session's `orders`, with the reducers `createOrderStart`, `createOrderSuccess`, `createOrderError` and `clearCurrentOrder`;
- **the checkout page's submit logic**: the fee and tax arithmetic, `validateForm`, the empty-cart guard, the order payload (the card number cut to its last four characters), and the actions dispatched around the repository's `create` call;
- **the cart line's quantity controls**: minus, plus and remove;
- **the in-memory order and product services**: CRUD over an array keyed by `Id`, modelled once, generically, in `Repository`;
- **the home page's product list**: the category and search filter, the `category` URL parameter, and `handleCategoryChange`.

Every reducer and service call is a pure function from the state before it to the state after it. Redux Toolkit's in-place "mutations" become new values, and a service call's thrown error becomes an `Err` result. The repository call inside the checkout is a parameter: either the created order or a failure message.

Modules, one per file:

- `Results`: `Option` and `Result`.
- `Lists`: `find`/`findIndex` and `filter`, with subsequence facts.
- `Text`: `trim`, ASCII `toLowerCase`, `includes` and `slice(-n)`.
- `Repository`: the generic store.
- `Products` and `OrderService`: the two services and their entities.
- `Cart` and `OrderSlice`: the two slices.
- `CartItem`: the quantity controls.
- `Checkout`: the submit logic.
- `Home`: the product list.

The field JavaScript calls `paymentInfo.method` is named `paymentMethod` here, because `method` is a Dafny keyword.

## Model

| member | source | states |
|---|---|---|
| Cart.AddToCart | src/store/cartSlice.js:13-31 | Aggregates are recomputed from the lines. A product not in the cart becomes a new last line: its id, its snapshot, the quantity (default 1), and price × quantity. An existing line is updated in place: its quantity grows by the requested amount and it is re-priced with the incoming product's price, while the old snapshot is kept. No other line changes. |
| Cart.RemoveFromCart | src/store/cartSlice.js:33-38 | Aggregates are consistent. Every surviving line has another id and came from the cart. Every line with another id survives. An absent id leaves the lines as they were. |
| Cart.UpdateQuantity | src/store/cartSlice.js:40-55 | An absent id leaves the whole state untouched, aggregates included. A quantity ≤ 0 on a present id is `removeFromCart`. Otherwise only the found line changes: it gets the quantity and quantity × its stored snapshot's price. |
| Cart.ClearCart | src/store/cartSlice.js:57-61 | From any state: no lines, total 0 and item count 0, which is a well-formed cart. |
| Cart.FindLine | src/store/cartSlice.js:15 | `items.find` by productId returns the first line with that id. It finds nothing exactly when no line has it. |
| Cart.AddNewMovesAggregates | src/store/cartSlice.js:21-30 | Adding a new product adds one line, price × quantity to the total and the quantity to the item count. |
| Cart.AddExistingMovesAggregates | src/store/cartSlice.js:17-30 | Adding to an existing line keeps the line count and adds the quantity to the item count. The total swaps the line's old subtotal for its new one. |
| Cart.RemovePresentMovesAggregates | src/store/cartSlice.js:35-37 | In a well-formed cart, removing a present product drops exactly its line and keeps the order of the rest. The line's subtotal and quantity leave the aggregates. |
| Cart.RemoveAbsentIsNoOp | src/store/cartSlice.js:35-37 | Removing an absent product from a consistent cart changes nothing. |
| Cart.SetQuantityMovesAggregates | src/store/cartSlice.js:48-53 | A positive update moves the item count by the quantity's difference. The total moves by the difference between the new price × quantity and the old subtotal. |
| Cart.SetNonPositiveRemovesLine | src/store/cartSlice.js:45-53 | A quantity ≤ 0 for a present product drops its line: one line fewer, and none left with that id. |
| Cart.AddKeepsWellFormed | src/store/cartSlice.js:13-31 | With a quantity of at least 1, adding keeps the aggregates equal to the sums, the ids unique and the quantities positive. |
| Cart.RemoveKeepsWellFormed | src/store/cartSlice.js:33-38 | Removing keeps the cart well formed. |
| Cart.SetQuantityKeepsWellFormed | src/store/cartSlice.js:40-55 | Updating a quantity keeps the cart well formed, whatever the requested quantity. |
| Cart.ReduceKeepsWellFormed | src/store/cartSlice.js:12-62 | Every action callers can dispatch keeps the cart well formed. |
| Cart.ReduceAllKeepsWellFormed | src/store/cartSlice.js:3-62 | Any sequence of such actions keeps the cart well formed. |
| Cart.AddKeepsSnapshotPricing | src/store/cartSlice.js:17-25 | Each subtotal stays quantity × its own snapshot's price, provided the incoming product's price equals the stored one. |
| Cart.SetQuantityKeepsSnapshotPricing | src/store/cartSlice.js:48-49 | `updateQuantity` prices from the stored snapshot, so it keeps each subtotal equal to quantity × snapshot price. |
| Cart.AddAtNewPriceBreaksSnapshotPricing | src/store/cartSlice.js:17-19 | Re-adding a product whose incoming price differs from the stored snapshot's always leaves a line whose subtotal is not quantity × its own snapshot's price (for any resulting quantity other than 0). |
| Cart.AddRepricesFromIncomingProduct | src/store/cartSlice.js:17-19 | A single witness: product 7 added at 2.00 and again at 3.00 gives one line of quantity 2 with subtotal 6.00 under the 2.00 snapshot. |
| Cart.AddTwiceMerges | src/store/cartSlice.js:15-19 | Adding the same product twice gives one line carrying both quantities. |
| OrderSlice.CreateOrderStart | src/store/orderSlice.js:14-17 | Sets loading and clears the error. The orders and the current order are unchanged. |
| OrderSlice.CreateOrderSuccess | src/store/orderSlice.js:19-23 | Ends loading and makes the order current. The order is appended after every existing order, and the error is kept. |
| OrderSlice.CreateOrderError | src/store/orderSlice.js:25-28 | Ends loading and records the message. The orders and the current order are unchanged. |
| OrderSlice.ClearCurrentOrder | src/store/orderSlice.js:30-32 | Drops the current order and changes nothing else. |
| OrderSlice.OrdersGrowOnlyOnSuccess | src/store/orderSlice.js:14-32 | Over any sequence of actions, the orders become the old orders followed by exactly the success actions' orders, in order. |
| OrderSlice.ReducerAcceptsOverlappingSubmissions | src/store/orderSlice.js:14-23 | The reducer accepts a second start while one is in flight: two starts then two successes record both orders. |
| Repository.NextId | src/services/api/orderService.js:24 | The assigned id exceeds every stored id and is one more than the greatest. On an empty store it is 1 (the corrected case). |
| Repository.NextIdAgreesWhenNonEmpty | src/services/api/orderService.js:24 | On a non-empty store, `Math.max(...ids) + 1` as written gives exactly the corrected id. |
| Repository.EmptyStoreIdsCollide | src/services/api/orderService.js:24 | As written, the first record created in an empty store gets Id -Infinity, and so does the next: two records share an Id. |
| Repository.GetAll | src/services/api/orderService.js:6-9 | Returns every record, in store order. |
| Repository.GetById | src/services/api/orderService.js:11-18 | Succeeds exactly when some record has the id, returning the first such record. Otherwise it fails with the not-found message. The store is unchanged. |
| Repository.Create | src/services/api/orderService.js:20-30 | Always succeeds. It appends exactly one record, built from the payload and the next id, and keeps every earlier record. |
| Repository.Update | src/services/api/orderService.js:32-44 | Succeeds exactly when the id is present. The first matching record is replaced in place by the merge of the data over it. A missing id fails with the not-found message and leaves the store unchanged. |
| Repository.Delete | src/services/api/orderService.js:46-54 | Succeeds exactly when the id is present. It splices out and returns the first matching record: one fewer record, the same multiset less that record, order kept. A missing id fails and changes nothing. |
| Repository.CreateThenGetById | src/services/api/orderService.js:13-28 | A created record can be read back by its new id. |
| Repository.CreateThenDelete | src/services/api/orderService.js:20-54 | Deleting the record just created restores the store. |
| OrderService.GetById | src/services/api/orderService.js:11-18 | `find` semantics: returns the first order in the store with the requested id. It fails with "Order not found" exactly when no order has that id. The store is unchanged. |
| OrderService.Create | src/services/api/orderService.js:20-30 | Appends the payload at the end under the next id: one more than the greatest stored id (1 on an empty store), so greater than every stored id. Every payload field is kept. `createdAt` and `updatedAt` are two separate clock readings. |
| OrderService.Update | src/services/api/orderService.js:32-44 | At the first index `findIndex` gives, merges the data over the order in place and sets `updatedAt`; no other order changes. It fails with "Order not found" exactly when the id is absent, leaving the store unchanged. |
| OrderService.Delete | src/services/api/orderService.js:46-54 | Splices out and returns the first order with that id: the store becomes the orders before it followed by the orders after it, in order. It fails with "Order not found" exactly when the id is absent, leaving the store unchanged. |
| OrderService.CreatedOrderIsFound | src/services/api/orderService.js:13-28 | A created order is found again by its id, whatever the two clock readings. |
| Products.Merge | src/services/api/productService.js:36 | `{ ...product, ...data }`: for each of Id, name, description, category and price, a present field overrides and an absent one keeps the stored value; an empty patch changes nothing. |
| Products.GetById | src/services/api/productService.js:11-18 | `find` semantics: returns the first product with the requested id. It fails with "Product not found" exactly when none has it. The store is unchanged. |
| Products.Create | src/services/api/productService.js:20-28 | Appends the product at the end under the next id: one more than the greatest stored id (1 on an empty store), so greater than every stored id. Every other field is kept. |
| Products.Update | src/services/api/productService.js:30-38 | At the first index `findIndex` gives, merges the data over the product in place; no other product changes. It fails with "Product not found" exactly when the id is absent, leaving the store unchanged. |
| Products.Delete | src/services/api/productService.js:40-48 | Splices out and returns the first product with that id: the store becomes the products before it followed by the products after it, in order. It fails with "Product not found" exactly when the id is absent, leaving the store unchanged. |
| CartItem.QuantityChange | src/components/molecules/CartItem.jsx:11-18 | A requested quantity ≤ 0 dispatches removal of the line's product. Any other quantity dispatches an update to exactly that quantity. |
| CartItem.Decrement | src/components/molecules/CartItem.jsx:54 | Minus removes a line of quantity 1 or less. Otherwise it asks for quantity − 1. |
| CartItem.Increment | src/components/molecules/CartItem.jsx:63 | Plus asks for quantity + 1. |
| CartItem.RemoveButton | src/components/molecules/CartItem.jsx:20-23 | The remove button always removes the line's product. |
| CartItem.ControlAgreesWithUpdateQuantity | src/components/molecules/CartItem.jsx:11-18 | For a line in the cart, the control's choice between removal and update gives the same cart as `updateQuantity` with that quantity. |
| CartItem.DecrementingSingleItemRemovesLine | src/components/molecules/CartItem.jsx:11-54 | Minus on a quantity-1 line removes it. No line for the product remains, the item count drops by one and the total by the line's subtotal. |
| CartItem.IncrementingAddsOneItem | src/components/molecules/CartItem.jsx:63 | Plus adds one item to that line in place, priced from its snapshot. |
| Checkout.FinalTotal | src/components/pages/Checkout.jsx:39-41 | Final total = subtotal × 1.08 + 5.99, and the tax is what remains after the subtotal and the fee. |
| Checkout.TwentyDollarCart | src/components/pages/Checkout.jsx:39-41 | A 20.00 cart pays 1.60 tax and 27.59 in all. |
| Checkout.FormErrorsExact | src/components/pages/Checkout.jsx:50-64 | A field is reported exactly when it is required for the payment method and its value trims to nothing. |
| Checkout.ValidateForm | src/components/pages/Checkout.jsx:50-68 | Valid exactly when no required field trims to nothing. |
| Checkout.ValidIffFilledIn | src/components/pages/Checkout.jsx:53-64 | Valid exactly when `trim` leaves something of each of the six delivery fields, and of the three card fields when paying by card. |
| Checkout.CashIgnoresCardFields | src/components/pages/Checkout.jsx:60-64 | Paying cash, the card fields do not affect validity. |
| Checkout.InitialFormIsInvalid | src/components/pages/Checkout.jsx:24-53 | The untouched form does not validate. |
| Checkout.SanitizedPayment | src/components/pages/Checkout.jsx:101-106 | Keeps the method. A card number is kept only for a card payment, and then it is its last four characters, or the whole number when it is shorter. |
| Checkout.BuildPayload | src/components/pages/Checkout.jsx:86-112 | The items are the cart lines, in order, with their four fields copied. The delivery info is the form's six fields and the payment is sanitized. Subtotal is the cart total, tax is 8% of it, and the total is subtotal × 1.08 + 5.99. Status is "confirmed". |
| Checkout.CardNumberIsTruncated | src/components/pages/Checkout.jsx:103-105 | A card number longer than four characters never reaches the payload whole: "4111111111111111" becomes "1111". |
| Checkout.HandleSubmit | src/components/pages/Checkout.jsx:70-125 | Rejects exactly an invalid form or an empty cart, and validation is checked first. On success it dispatches start, success(order), clearCart. On failure it dispatches start, error(message). The payload sent is built from the cart and form. |
| Checkout.SuccessTrace | src/components/pages/Checkout.jsx:84-116 | The success dispatch sequence leaves the cleared cart and the start-then-success order state. |
| Checkout.FailureTrace | src/components/pages/Checkout.jsx:84-122 | The failure dispatch sequence leaves the cart as it was and the start-then-error order state. |
| Checkout.PlaceOrder | src/components/pages/Checkout.jsx:70-125 | One press of the button: while loading, or when the form is invalid or the cart empty, the store is unchanged. Otherwise a created order leaves the cleared cart and the start-then-success order state, and a failed create leaves the cart and the start-then-error order state. |
| Checkout.RejectedSubmitChangesNothing | src/components/pages/Checkout.jsx:73-81 | A rejected submission leaves both slices exactly as they were. |
| Checkout.SuccessfulSubmitClearsCart | src/components/pages/Checkout.jsx:84-116 | With the button enabled, after a successful submission the cart is empty and the created order is current and appended to the orders. Loading has ended and there is no error. |
| Checkout.FailedSubmitKeepsCart | src/components/pages/Checkout.jsx:84-122 | With the button enabled, after a failed submission the cart, the current order and the orders are unchanged. The message is recorded and loading has ended. |
| Checkout.PressWhileLoadingChangesNothing | src/components/pages/Checkout.jsx:337-342 | The "Place Order" button is disabled while an order loads, so a press then neither validates nor dispatches: the store is unchanged. |
| Checkout.SecondPressInFlightIsIgnored | src/components/pages/Checkout.jsx:337-342 | Once start is dispatched, a second press is ignored until the outcome arrives: no second order is submitted. |
| Checkout.PressLeavesButtonEnabled | src/components/pages/Checkout.jsx:84-122 | Whatever the outcome, a press on the enabled button leaves it enabled: no submission leaves the order loading. |
| Checkout.SubmitThroughOrderService | src/components/pages/Checkout.jsx:86-115 | With the button enabled and the in-memory order service behind `create`, the current order carries the cart's lines, the sanitized payment and the computed total, under an id no earlier order has. |
| Home.FilterProducts | src/components/pages/Home.jsx:51-68 | A product is listed exactly when it is loaded, in the active category (any, for "All Items"), and its lower-cased name or description contains the lower-cased term. Every occurrence of such a product is kept and no other, and the list is an order-preserving subsequence of the loaded products. |
| Home.StagesKeepCounts | src/components/pages/Home.jsx:51-65 | Through both stages, each shown product keeps its number of occurrences and every other product has none. |
| Home.CategoryStageMembers | src/components/pages/Home.jsx:54-57 | The category stage keeps exactly the loaded products in the active category, and all of them for "All Items". |
| Home.SearchStageMembers | src/components/pages/Home.jsx:59-65 | The search stage keeps exactly the products whose lower-cased name or description contains the lower-cased term. An empty term keeps everything. |
| Home.StagesKeepOrder | src/components/pages/Home.jsx:51-65 | The category stage and the search stage each keep the products in their original order. |
| Home.EmptyTermMatchesEverything | src/components/pages/Home.jsx:60-64 | An empty term matches every product, so skipping the text filter for it changes nothing. |
| Home.MatchesSearchIffOccurs | src/components/pages/Home.jsx:61-64 | The search test holds exactly when the lower-cased term occurs somewhere in the lower-cased name or description. |
| Home.InitialViewListsEverything | src/components/pages/Home.jsx:17-68 | With "All Items" and no term, every loaded product is listed, in order. |
| Home.SearchIgnoresTermCase | src/components/pages/Home.jsx:61-64 | A term and its lower-cased form list the same products. |
| Home.AcceptCategoryParam | src/components/pages/Home.jsx:20-32 | The URL parameter becomes the active category exactly when it names one of the four categories. Otherwise the active category is kept. |
| Home.HandleCategoryChange | src/components/pages/Home.jsx:70-78 | The category becomes active. The URL loses its parameters exactly for "All Items" and otherwise carries the category. |
| Home.CategoryChangeIsStable | src/components/pages/Home.jsx:26-78 | Reacting to the URL a button wrote keeps the pressed category active. |
| Home.ReloadRestoresCategory | src/components/pages/Home.jsx:17-78 | Reloading from the URL a button wrote restores the category exactly when it is one of the four. |
| Home.RemovedParamKeepsCategory | src/components/pages/Home.jsx:28-31 | A URL without the parameter leaves the active category as it was. |
| Lists.FindIndex | src/services/api/orderService.js:34 | `findIndex` returns the first position satisfying the test, or nothing when there is none. |
| Lists.FilterMembers | src/store/cartSlice.js:35 | `filter` keeps exactly the elements satisfying the test. |
| Lists.FilterIsSubsequence | src/store/cartSlice.js:35 | `filter` keeps the survivors in their original order. |
| Lists.FilterCounts | src/store/cartSlice.js:35 | `filter` keeps every occurrence of a satisfying element and none of the others. |
| Text.Trim | src/components/pages/Checkout.jsx:53 | `trim` yields an infix of the string that neither starts nor ends with whitespace, and everything cut off before and after it is whitespace. |
| Text.TrimLeavesNothingIffBlank | src/components/pages/Checkout.jsx:53-63 | `!s.trim()` holds exactly when every character is whitespace. |
| Text.IncludesIffOccurs | src/components/pages/Home.jsx:62-63 | `includes` holds exactly when the needle occurs at some position. |
| Text.Lower | src/components/pages/Home.jsx:62-63 | `toLowerCase` keeps the length and lower-cases each ASCII capital. |
| Text.SliceLast | src/components/pages/Checkout.jsx:104 | `slice(-4)` is the last four characters, or the whole string when it is shorter. |

## Left out

- The artificial `delay` in every service call. Each call is one atomic step.
- The async interleaving of a submission with other user actions.
- The mock JSON data the services start from. The stores are parameters.
- `src/store/store.js`, which only wires the two slices together. The checkout model combines them in `Checkout.Store`.
- `new Date().toISOString()`: each clock reading is a parameter. `OrderService.Create` takes two, one for `createdAt` and one for `updatedAt`, since `create` reads the clock twice; `OrderService.Update` takes one.
- Floating-point arithmetic and `toFixed(2)` display rounding. Money is exact `real`: tax rate 8/100, fee 599/100.
- Unicode case mapping and code points beyond those `trim` removes. `toLowerCase` is modelled on ASCII letters only.
- Product fields the logic never reads (image, nutrition, ingredients and so on). `Product` keeps Id, name, description, category and price.
- Free-form patches: `update` data is a record of optional fields, so a patch cannot add fields that an order or product does not have.
- Rendering, toasts, framer-motion, navigation after a placed order, `handleInputChange`, and the page-level empty-cart screen.
- The home page's `loadProducts` (an async fetch with loading and error flags). The filter takes the loaded products as a parameter.
- The duplicated fee and tax display in `CartSidebar.jsx`.
- Cart.AddToCart: for an explicit `quantity` of 0 or below, the model adds that quantity as given, as the source does. The well-formedness lemmas assume a quantity of at least 1, the only values the storefront's callers pass.
- Cart.AddToCart: `quantity = 1` also applies when the payload holds `undefined`. `None` stands for both the absent and the `undefined` quantity; any other non-numeric quantity is not modelled.
- OrderSlice.CreateOrderStart: single-flight is not a reducer property and is not claimed. Only the disabled button stops a second submission; `Checkout.PlaceOrder` models that press, and `Checkout.PressWhileLoadingChangesNothing` states it.
- Text.SliceLast and Checkout.SanitizedPayment: strings are sequences of Unicode scalar values, while JavaScript's `slice(-4)` counts UTF-16 code units. The two differ on card numbers holding characters outside the Basic Multilingual Plane, where `slice` can cut a surrogate pair in half.
- Products.GetAll and OrderService.GetAll carry no contract of their own. They are `Repository.GetAll`.
- Products.Update and OrderService.Update: a patch may carry an `Id`, which then overrides the stored one, as the spread does. No lemma says the ids stay unique afterwards, because they need not.

## Findings

| source | as written | input that shows it | evidently intended | confidence | as-written member | corrected member |
|---|---|---|---|---|---|---|
| src/services/api/orderService.js:24 | `Math.max(...mockOrders.map(o => o.Id)) + 1` is `-Infinity` on an empty store | `create` twice on an empty order store: both orders get Id -Infinity | ids one more than the greatest, starting at 1 on an empty store | not executed | Repository.EmptyStoreIdsCollide | Repository.NextId |
| src/services/api/productService.js:24 | `Math.max(...mockProducts.map(p => p.Id)) + 1` is `-Infinity` on an empty store | `create` twice on an empty product store: both products get Id -Infinity | ids one more than the greatest, starting at 1 on an empty store | not executed | Repository.EmptyStoreIdsCollide | Repository.NextId |
