# Order workflow of an e-commerce API, in Dafny

This project models the order controller of an Express/Mongoose e-commerce backend
(`controllers/orderController.js`) together with the product schema it relies on
(`models/Product.js`). The document store is replaced by three in-memory tables:

- the **catalog**: product id → product (name, description, price, category, stock, creation time);
- the **carts**: user id → the cart's lines `(product, quantity)`;
- the **orders**: a sequence of orders, where an order's id is its position.

Files and modules:

- `wrappers.dfy` (`Wrappers`): `Option` and `Result`.
- `products.dfy` (`Products`): the product schema. Creating a product applies the `trim` setter on the name and the defaults for absent fields (stock 0, creation time now), then runs the validators. `Valid` is the predicate every catalog entry satisfies.
- `order_types.dfy` (`OrderTypes`): cart lines, order lines, orders, the error responses, the tables and their invariant. The invariant says:
  - the catalog is valid;
  - each order sits at the position given by its id;
  - each order line carries a non-negative price;
  - each order's total is the sum of price × quantity over its lines.
- `order_placement.dfy` (`OrderPlacement`): `createOrder` as a function of the tables (`PlaceOrder`), built from four pieces:
  - the per-line availability check;
  - the order lines with snapshot prices;
  - the `reduce` that computes the total;
  - the stock decrements.

  The lemmas state its outcome exactly. The module also holds the corrected workflow (`PlaceOrderAtomic`), described under Findings.
- `order_queries.dfy` (`OrderQueries`): `getOrderById` (the authorisation decision), `getMyOrders` (filter by owner), `getOrders`, and the field update of `updateOrderToDelivered`.
- `order_store.dfy` (`OrderStore`): class `Store` holding the three tables. It has these imperative methods:
  - `CreateOrder`: two loops over the cart, stock lowered in place, the order appended, the cart removed;
  - `MarkDelivered`;
  - `CreateOrderAtomic`, the corrected variant.

  Each method is proved equal to its specification function.

Prices and totals are integers in the smallest currency unit, so totals are exact. The request
time (`Date.now()`) is a parameter. Any exception that the handlers' `catch` turns into a
500 response is the error `ServerError`.

Two behaviours of the code are easy to miss, and the model follows the code on both:

- **A missing product is a server error.** A cart line whose product no longer exists is
  populated as `null`, so `item.product._id` (controllers/orderController.js:22) throws and the
  handler answers 500. It does not answer "not available". The `!product` test at :23 can
  only fire when another request deletes the product between the two reads.
- **Stock never goes below zero, even with repeated lines.** `product.save()` (:59) runs the
  schema's `min: 0` validator on `stock`. So a cart that names the same product on two lines
  cannot drive its stock below zero. Instead, the save that would do so throws. This happens
  after the order has been saved and after the earlier lines' decrements were saved, and the
  cart is not deleted (see Findings).

## Model

| member | source | states |
|---|---|---|
| `Products.Create` | models/Product.js:3-32 | A created product is valid. Its name is the trimmed input name. Description, price and category are copied. Stock is the given value or 0 when absent. The creation time is the given value or now when absent. On failure the error set is non-empty and holds exactly the fields whose validator fails: a required string missing or empty, price missing or below 0, stock below 0. |
| `Products.TrimStart` | models/Product.js:7 | The result is a suffix of the input that is empty or does not start with white space. Everything dropped before it is white space. |
| `Products.TrimEnd` | models/Product.js:7 | The result is a prefix of the input that is empty or does not end with white space. Everything dropped after it is white space. |
| `Products.Errors` | models/Product.js:3-27 | Given the name as the trim setter left it, a field is in the set exactly when its validator fails: name missing or empty, description or category missing or empty, price missing or below 0, stock (0 when absent) below 0. |
| `Products.TrimIsTrimmed` | models/Product.js:7 | A trimmed string has no white space at either end. |
| `Products.TrimFixesTrimmed` | models/Product.js:7 | A string with no white space at either end is its own trim. |
| `Products.TrimIdempotent` | models/Product.js:4-8 | Trimming twice is trimming once. |
| `Products.CreatedNameIsTrimmed` | models/Product.js:4-8 | The stored name of a created product is unchanged by trimming it again. |
| `Products.RestockValid` | models/Product.js:22-27 | Changing only the stock of a valid product keeps it valid exactly when the new stock is at least 0. This is what the validators decide when a decremented product is saved. |
| `OrderTypes.LinesTotalNonNegative` | controllers/orderController.js:38-41 | Order lines with non-negative prices have a non-negative total. |
| `OrderTypes.StoredTotalsNonNegative` | controllers/orderController.js:31-50 | Every order held by valid tables has a total of at least 0, since its lines copy valid products' prices. |
| `OrderPlacement.CheckLines` | controllers/orderController.js:21-28 | The check passes iff every line's product exists with stock ≥ the line's quantity. A failure is the error of a failing line with every earlier line passing: the product's name, or a server error when the product is missing. |
| `OrderPlacement.CheckLinesFirstFailure` | controllers/orderController.js:21-28 | The first failing line alone determines the error. |
| `OrderPlacement.ReduceIsLinesTotal` | controllers/orderController.js:31-41 | The left fold over the cart equals its seed plus the sum of price × quantity over the snapshot order lines. |
| `OrderPlacement.DemandCoversLine` | controllers/orderController.js:56-60 | A line's quantity is part of the cart's total demand for its product. |
| `OrderPlacement.DemandAbsent` | controllers/orderController.js:56-60 | A product no line names has no demand. |
| `OrderPlacement.FitsPassesCheck` | controllers/orderController.js:21-28 | If every product's total demand is within its stock, every line passes the per-line check. |
| `OrderPlacement.FitsAfterFirst` | controllers/orderController.js:56-60 | After the first line's decrement, the rest of the cart fits the new stock iff the whole cart fitted the old stock. |
| `OrderPlacement.ApplyDecrementsValid` | controllers/orderController.js:56-60 | Whether or not a save fails, the decrement loop keeps the catalog valid, so no stock is ever below 0. It also keeps the set of products. |
| `OrderPlacement.ApplyDecrementsOk` | controllers/orderController.js:56-60 | Every save succeeds iff each product's total demand over the cart is within its stock. |
| `OrderPlacement.ApplyDecrementsStock` | controllers/orderController.js:56-60 | When every save succeeds, each product's stock drops by exactly its demand. Products not in the cart and all other fields are unchanged. |
| `OrderPlacement.PlaceOrderNoItems` | controllers/orderController.js:16-18 | With no cart or an empty cart, the answer is "No items in cart" and no table changes. |
| `OrderPlacement.PlaceOrderUnavailable` | controllers/orderController.js:21-27 | If line i is the first to fail the check, the answer names its product (or is a server error for a missing product) and no table changes. |
| `OrderPlacement.PlaceOrderSpec` | controllers/orderController.js:8-69 | The tables stay valid in every outcome. Success iff the cart exists, is non-empty and every product's total demand fits its stock. On success: (1) exactly one order is appended, with id equal to its position; (2) it has the user as owner, the given address and payment method, status Placed, the creation time and no delivery time; (3) its lines are the cart lines in order, with copied prices; (4) its total is the sum over those lines; (5) each stock drops by exactly its demand; (6) the user's cart is removed and other carts are untouched. |
| `OrderPlacement.DemandOfDistinct` | controllers/orderController.js:56-60 | In a cart of distinct products, a product's demand is its one line's quantity. |
| `OrderPlacement.PlaceOrderDistinct` | controllers/orderController.js:21-60 | A non-empty cart of pairwise-distinct products that passes the per-line check is always ordered, and every stock stays ≥ 0. |
| `OrderPlacement.ApplyDecrementsFailure` | controllers/orderController.js:56-60 | When a save fails, there is a line k where the loop stopped: the saves of all lines before k succeeded and gave the final catalog, and line k's product is missing or has less stock left than line k asks for. |
| `OrderPlacement.FailsAtShift` | controllers/orderController.js:56-60 | After the first line's save succeeds, a stop at line k of the rest of the cart is a stop at line k + 1 of the whole cart. |
| `OrderPlacement.PlaceOrderPartialFailure` | controllers/orderController.js:21-63 | A cart passes the per-line check, but some product's total demand exceeds its stock. Then the answer is a server error. Yet the order built from the cart (its lines and total) is appended and the carts are unchanged. The catalog is exactly what the decrements of the lines before some line k left, and line k asks for more than its product has left. |
| `OrderPlacement.RetryAfterPartialFailure` | controllers/orderController.js:21-28 | Right after such a partial failure, placing the same cart again changes nothing and fails the per-line check. The answer is "not available" naming the product of the first line that asks for more than is now left (every earlier line passing). |
| `OrderPlacement.ReorderAfterRestock` | controllers/orderController.js:8-69 | After such a partial failure, once the catalog is restocked (same prices) so that the cart fits, placing the kept cart succeeds. It appends a second order with the same lines, so one cart has produced two orders. |
| `OrderPlacement.DuplicateLineCounterexample` | controllers/orderController.js:21-63 | Take one product with stock 1 and a cart with two 1-unit lines for it. The cart passes the check, one order with total 1000 is recorded and the stock ends at 0. The answer is a server error and the cart is unchanged. |
| `OrderPlacement.TwoProductOrder` | controllers/orderController.js:8-69 | Take price 10 / stock 5 ordered ×2 and price 3 / stock 1 ordered ×1. The order succeeds with total 23, the stocks become 3 and 0, and the cart is gone. |
| `OrderPlacement.OverQuantityRejected` | controllers/orderController.js:21-27 | Take 2 units requested with 1 in stock. The answer names the product and the tables are unchanged. |
| `OrderPlacement.CheckDemand` | controllers/orderController.js:21-28 | The corrected check passes iff every line's product exists and covers the cart's total demand for it. |
| `OrderPlacement.PlaceOrderAtomicIsAtomic` | controllers/orderController.js:8-69 | The corrected workflow changes no table when it fails, keeps the tables valid, and succeeds iff the cart is non-empty and fits the stock. When it succeeds it gives the same result and tables as the code as written. |
| `OrderQueries.GetOrderById` | controllers/orderController.js:80-87 | The order is returned iff it exists and the requester owns it or has role admin. An existing order asked for by anyone else is "Not authorized", and an absent id is "Order not found". |
| `OrderQueries.GetMyOrders` | controllers/orderController.js:98 | Each order of the user appears as many times as in the table, and no one else's order appears. |
| `OrderQueries.GetOrders` | controllers/orderController.js:110 | Every stored order is returned, as many times as it is stored and no other, and each is also in its owner's own list. |
| `OrderQueries.OwnListMatchesAccess` | controllers/orderController.js:80-98 | For a non-admin requester, the orders they can open by id are exactly the orders in their own list. |
| `OrderQueries.Deliver` | controllers/orderController.js:124-126 | The status becomes delivered and the delivery time is the given time. Every other field is unchanged. |
| `OrderQueries.RedeliveryRestamps` | controllers/orderController.js:124-131 | Delivering an order twice succeeds and only re-stamps the delivery time. |
| `OrderQueries.DeliverKeepsTablesValid` | controllers/orderController.js:124-128 | Delivery keeps the tables' invariant: ids, lines and totals are untouched. |
| `OrderStore.Store.DecrementStock` | controllers/orderController.js:56-60 | The in-place loop leaves the catalog and the success flag exactly as `ApplyDecrements` gives them. |
| `OrderStore.Store.CommitOrder` | controllers/orderController.js:30-65 | After the check: the order is saved, the stock is decremented in place, and the cart is deleted if every save succeeded; the response and new tables are exactly `Commit` of the old tables. |
| `OrderStore.Store.CreateOrder` | controllers/orderController.js:8-69 | The response and the new tables are exactly `PlaceOrder` of the old tables, and the tables' invariant is kept. |
| `OrderStore.Store.CreateOrderAtomic` | controllers/orderController.js:8-69 | The response and the new tables are exactly `PlaceOrderAtomic` of the old tables. A failure changes nothing. |
| `OrderStore.Store.MarkDelivered` | controllers/orderController.js:120-136 | An existing order is replaced by its delivered version and returned, and no other order or table changes. An absent id is "Order not found" with nothing changed. The invariant is kept. |

## Left out

- Express routing, middleware, the database connection and process handling (`app.js`, `config/db.js`, `routes/cartRoutes.js`) are framework and I/O. The cart controller these routes bind to is not part of this model.
- Persistence is modelled by in-memory tables. Generated ids become positions in the orders table. `populate`, `save` and `findOneAndDelete` become table reads and writes. A fetched document that is changed and saved becomes a replaced table entry, so aliasing between document objects is not modelled.
- The schema of orders (`models/Order.js`) is not part of this model. The order is taken to be accepted on save. The initial status is called `Placed`, and the creation time is the request time.
- The cart schema is not part of this model. Quantities are natural numbers.
- Storage failures other than those modelled are not represented. The model does cover the null product and the rejected save; other failures would appear as the `ServerError` response. A malformed order id (a cast error, 500) is not represented: ids are natural numbers.
- Concurrent requests are out of scope: the model is sequential. This includes the race between the availability check and the decrement across two requests.
- Floating-point prices are not modelled: prices are integers. Mongoose's casting of submitted values to `String`/`Number` is not modelled either: inputs are already typed.
- `getOrderById` and `getOrders` populate the owning user. The user records and the `id name` owner summary are not modelled. A deleted owner, whose populated `null` would make `getOrderById` answer 500, is therefore not modelled.
- HTTP status codes and JSON bodies become the `Error` datatype. The role check (`protect`/admin middleware) in front of the handlers is not modelled; the requester's role is an input.

## Findings

| source | as written | input that shows it | evidently intended | confidence | as-written member | corrected member |
|---|---|---|---|---|---|---|
| controllers/orderController.js:21-63 | The availability check compares each line's quantity with the stock on its own. The decrements then accumulate per line. The order is saved before the decrements and the cart is deleted after them. So when the per-line check passes but a product's total demand exceeds its stock, the `min: 0` validator makes `product.save()` throw part-way. The response is 500, but the order exists, earlier decrements stand and the cart is not deleted. An immediate retry is rejected by the check, but once the product is restocked the kept cart can be ordered again, giving a second order for the same items. | One product with stock 1, and a cart with two lines of 1 unit each for it. | Check each product's total demand over the cart against its stock, so that a failure changes nothing. | not executed; relies on Mongoose running validators on `save()` by default | `OrderPlacement.DuplicateLineCounterexample` | `OrderPlacement.PlaceOrderAtomicIsAtomic` |
