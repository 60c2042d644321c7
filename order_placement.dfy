/**
 * `createOrder` (controllers/orderController.js) as a function of the tables:
 * the availability check, the order lines with snapshot prices, the total, the
 * stock decrements and the removal of the cart, with every error path.
 */
module OrderPlacement {
  import opened Wrappers
  import Products
  import opened OrderTypes

  // ---------------------------------------------------------------------------
  // The availability check (first loop over the cart)
  // ---------------------------------------------------------------------------

  /** A line passes the check: its product exists and has at least the requested stock. */
  predicate LineOk(c: Catalog, line: CartLine) {
    line.product in c && c[line.product].stock >= line.quantity
  }

  /**
   * The error a failing line produces. A product missing from the catalog leaves the
   * cart line's populated product null, and reading its id throws: a server error.
   */
  function LineError(c: Catalog, line: CartLine): Error {
    if line.product !in c then ServerError else Unavailable(c[line.product].name)
  }

  /** The check over the lines in order: the error of the first failing line, if any. */
  function CheckLines(c: Catalog, lines: seq<CartLine>): (r: Option<Error>)
    ensures r.None? <==> forall i :: 0 <= i < |lines| ==> LineOk(c, lines[i])
    ensures r.Some? ==> exists i :: 0 <= i < |lines| && !LineOk(c, lines[i])
                                   && (forall j :: 0 <= j < i ==> LineOk(c, lines[j]))
                                   && r.value == LineError(c, lines[i])
  {
    if lines == [] then None
    else if !LineOk(c, lines[0]) then Some(LineError(c, lines[0]))
    else
      var r := CheckLines(c, lines[1..]);
      assert forall i :: 1 <= i < |lines| ==> lines[i] == lines[1..][i - 1];
      if r.Some? then
        var k :| 0 <= k < |lines[1..]| && !LineOk(c, lines[1..][k])
                 && (forall j :: 0 <= j < k ==> LineOk(c, lines[1..][j]))
                 && r.value == LineError(c, lines[1..][k]);
        assert !LineOk(c, lines[k + 1]) && r.value == LineError(c, lines[k + 1]);
        r
      else
        r
  }

  /** The first failing line determines the error, and nothing after it matters. */
  lemma {:induction false} CheckLinesFirstFailure(c: Catalog, lines: seq<CartLine>, i: nat)
    requires i < |lines| && !LineOk(c, lines[i])
    requires forall j :: 0 <= j < i ==> LineOk(c, lines[j])
    ensures CheckLines(c, lines) == Some(LineError(c, lines[i]))
  {
    if i > 0 {
      assert LineOk(c, lines[0]);
      assert forall j :: 0 <= j < i - 1 ==> lines[1..][j] == lines[j + 1];
      CheckLinesFirstFailure(c, lines[1..], i - 1);
    }
  }

  // ---------------------------------------------------------------------------
  // Order lines and total (the `map` and the `reduce`)
  // ---------------------------------------------------------------------------

  /** Every line's product is in the catalog. */
  predicate InCatalog(c: Catalog, lines: seq<CartLine>) {
    forall i :: 0 <= i < |lines| ==> lines[i].product in c
  }

  /** The order lines: each cart line with the current price of its product copied in. */
  function OrderLines(c: Catalog, lines: seq<CartLine>): (r: seq<OrderLine>)
    requires InCatalog(c, lines)
  {
    seq(|lines|, i requires 0 <= i < |lines| =>
      OrderLine(lines[i].product, lines[i].quantity, c[lines[i].product].price))
  }

  /** The `reduce` over the cart: a left fold adding price times quantity to `sum`. */
  function Reduce(sum: int, c: Catalog, lines: seq<CartLine>): int
    requires InCatalog(c, lines)
    decreases lines
  {
    if lines == [] then sum
    else Reduce(sum + c[lines[0].product].price * lines[0].quantity, c, lines[1..])
  }

  /** The fold computes the sum over the order lines it snapshots. */
  lemma {:induction false} ReduceIsLinesTotal(sum: int, c: Catalog, lines: seq<CartLine>)
    requires InCatalog(c, lines)
    ensures Reduce(sum, c, lines) == sum + LinesTotal(OrderLines(c, lines))
    decreases lines
  {
    if lines != [] {
      ReduceIsLinesTotal(sum + c[lines[0].product].price * lines[0].quantity, c, lines[1..]);
      assert OrderLines(c, lines)[1..] == OrderLines(c, lines[1..]);
    }
  }

  // ---------------------------------------------------------------------------
  // Stock decrements (second loop over the cart)
  // ---------------------------------------------------------------------------

  /** The total quantity of product `p` over the lines. */
  function Demand(lines: seq<CartLine>, p: ProductId): nat {
    if lines == [] then 0
    else (if lines[0].product == p then lines[0].quantity else 0) + Demand(lines[1..], p)
  }

  /** Every product's total demand is within its stock. */
  predicate Fits(c: Catalog, lines: seq<CartLine>) {
    forall i :: 0 <= i < |lines| ==>
      lines[i].product in c && Demand(lines, lines[i].product) <= c[lines[i].product].stock
  }

  /** The catalog after the decrements, and whether every save succeeded. */
  datatype StockUpdate = StockUpdate(catalog: Catalog, ok: bool)

  /**
   * The decrement loop: each line re-reads its product, subtracts the quantity and
   * saves it. The save runs the schema's validators, so a stock that would go below 0
   * throws; saves already made stay made.
   */
  function ApplyDecrements(c: Catalog, lines: seq<CartLine>): StockUpdate {
    if lines == [] then StockUpdate(c, true)
    else
      var p := lines[0].product;
      if p !in c then StockUpdate(c, false)
      else
        var updated := c[p].(stock := c[p].stock - lines[0].quantity);
        if !Products.Valid(updated) then StockUpdate(c, false)
        else ApplyDecrements(c[p := updated], lines[1..])
  }

  /** A line's own quantity is part of its product's demand. */
  lemma {:induction false} DemandCoversLine(lines: seq<CartLine>, i: nat)
    requires i < |lines|
    ensures Demand(lines, lines[i].product) >= lines[i].quantity
  {
    if i > 0 {
      DemandCoversLine(lines[1..], i - 1);
    }
  }

  /** A product no line mentions has no demand. */
  lemma {:induction false} DemandAbsent(lines: seq<CartLine>, p: ProductId)
    requires forall i :: 0 <= i < |lines| ==> lines[i].product != p
    ensures Demand(lines, p) == 0
  {
    if lines != [] {
      DemandAbsent(lines[1..], p);
    }
  }

  /** Demand that fits implies that every line passes the per-line check. */
  lemma FitsPassesCheck(c: Catalog, lines: seq<CartLine>)
    requires Fits(c, lines)
    ensures CheckLines(c, lines) == None
  {
    forall i | 0 <= i < |lines| ensures LineOk(c, lines[i]) {
      DemandCoversLine(lines, i);
    }
  }

  /** The catalog after the first line's decrement has been saved. */
  function AfterFirst(c: Catalog, lines: seq<CartLine>): Catalog
    requires |lines| > 0 && lines[0].product in c
  {
    c[lines[0].product := c[lines[0].product].(stock := c[lines[0].product].stock - lines[0].quantity)]
  }

  /**
   * Once the first line's decrement is saved, the rest of the cart fits the new stock
   * exactly when the whole cart fitted the old one.
   */
  lemma FitsAfterFirst(c: Catalog, lines: seq<CartLine>)
    requires |lines| > 0 && lines[0].product in c
    requires c[lines[0].product].stock >= lines[0].quantity
    ensures Fits(AfterFirst(c, lines), lines[1..]) <==> Fits(c, lines)
  {
    var p := lines[0].product;
    var rest := lines[1..];
    var c' := AfterFirst(c, lines);
    assert forall i :: 1 <= i < |lines| ==> lines[i] == rest[i - 1];
    assert forall q :: q in c ==>
      (Demand(rest, q) <= c'[q].stock <==> Demand(lines, q) <= c[q].stock);
    if Fits(c', rest) {
      if exists k :: 0 <= k < |rest| && rest[k].product == p {
        var k :| 0 <= k < |rest| && rest[k].product == p;
        assert Demand(rest, rest[k].product) <= c'[rest[k].product].stock;
      } else {
        DemandAbsent(rest, p);
      }
      assert Fits(c, lines);
    }
    if Fits(c, lines) {
      forall i | 0 <= i < |rest|
        ensures rest[i].product in c' && Demand(rest, rest[i].product) <= c'[rest[i].product].stock
      {
        assert rest[i] == lines[i + 1];
      }
    }
  }

  /** The decrements keep a valid catalog valid and keep its products, whatever happens. */
  lemma {:induction false} ApplyDecrementsValid(c: Catalog, lines: seq<CartLine>)
    requires CatalogValid(c)
    ensures CatalogValid(ApplyDecrements(c, lines).catalog)
    ensures ApplyDecrements(c, lines).catalog.Keys == c.Keys
  {
    if lines != [] && lines[0].product in c {
      var p := lines[0].product;
      Products.RestockValid(c[p], c[p].stock - lines[0].quantity);
      if Products.Valid(c[p].(stock := c[p].stock - lines[0].quantity)) {
        ApplyDecrementsValid(AfterFirst(c, lines), lines[1..]);
      }
    }
  }

  /** On a valid catalog every save succeeds exactly when each product's total demand is within its stock. */
  lemma {:induction false} ApplyDecrementsOk(c: Catalog, lines: seq<CartLine>)
    requires CatalogValid(c)
    ensures ApplyDecrements(c, lines).ok <==> Fits(c, lines)
  {
    if lines != [] {
      var p := lines[0].product;
      if p !in c {
        assert !Fits(c, lines);
      } else {
        Products.RestockValid(c[p], c[p].stock - lines[0].quantity);
        if !Products.Valid(c[p].(stock := c[p].stock - lines[0].quantity)) {
          DemandCoversLine(lines, 0);
          assert !Fits(c, lines);
        } else {
          ApplyDecrementsValid(c, [lines[0]]);
          assert AfterFirst(c, lines) == ApplyDecrements(c, [lines[0]]).catalog;
          ApplyDecrementsOk(AfterFirst(c, lines), lines[1..]);
          FitsAfterFirst(c, lines);
        }
      }
    }
  }

  /** When every save succeeds, each product has lost exactly its demand and nothing else about it changed. */
  lemma {:induction false} ApplyDecrementsStock(c: Catalog, lines: seq<CartLine>)
    requires ApplyDecrements(c, lines).ok
    ensures ApplyDecrements(c, lines).catalog.Keys == c.Keys
    ensures forall p :: p in c ==>
      ApplyDecrements(c, lines).catalog[p] == c[p].(stock := c[p].stock - Demand(lines, p))
  {
    if lines != [] {
      var c' := AfterFirst(c, lines);
      ApplyDecrementsStock(c', lines[1..]);
    }
  }

  // ---------------------------------------------------------------------------
  // The whole workflow
  // ---------------------------------------------------------------------------

  /** The order `createOrder` builds from a cart that passed the check. */
  function NewOrder(t: Tables, user: UserId, cart: seq<CartLine>,
                    shipping: Address, payment: PaymentMethod, now: Time): Order
    requires InCatalog(t.catalog, cart)
  {
    Order(|t.orders|, user, OrderLines(t.catalog, cart), Reduce(0, t.catalog, cart),
          shipping, payment, Placed, now, None)
  }

  /**
   * What `createOrder` does once the check has passed: save the order, decrement the
   * stock line by line, then delete the cart. A save that fails during the decrements
   * leaves the order and the earlier decrements in place, and the cart undeleted.
   */
  function Commit(t: Tables, user: UserId, cart: seq<CartLine>, shipping: Address,
                  payment: PaymentMethod, now: Time): (Result<Order, Error>, Tables)
    requires InCatalog(t.catalog, cart)
  {
    var order := NewOrder(t, user, cart, shipping, payment, now);
    var u := ApplyDecrements(t.catalog, cart);
    if !u.ok then (Err(ServerError), Tables(u.catalog, t.carts, t.orders + [order]))
    else (Ok(order), Tables(u.catalog, t.carts - {user}, t.orders + [order]))
  }

  /** `createOrder` as written: the response and the tables afterwards. */
  function PlaceOrder(t: Tables, user: UserId, shipping: Address, payment: PaymentMethod,
                      now: Time): (Result<Order, Error>, Tables)
  {
    if user !in t.carts || |t.carts[user]| == 0 then (Err(NoItems), t)
    else
      var cart := t.carts[user];
      match CheckLines(t.catalog, cart)
      case Some(e) => (Err(e), t)
      case None => Commit(t, user, cart, shipping, payment, now)
  }

  /** With no cart, or an empty one, the answer is "No items in cart" and nothing changes. */
  lemma PlaceOrderNoItems(t: Tables, user: UserId, shipping: Address, payment: PaymentMethod, now: Time)
    requires user !in t.carts || t.carts[user] == []
    ensures PlaceOrder(t, user, shipping, payment, now) == (Err(NoItems), t)
  {
  }

  /**
   * When line `i` is the first to fail the check, the answer names its product (or is a
   * server error if the product is gone) and no table changes.
   */
  lemma PlaceOrderUnavailable(t: Tables, user: UserId, shipping: Address, payment: PaymentMethod,
                              now: Time, i: nat)
    requires user in t.carts && i < |t.carts[user]|
    requires !LineOk(t.catalog, t.carts[user][i])
    requires forall j :: 0 <= j < i ==> LineOk(t.catalog, t.carts[user][j])
    ensures PlaceOrder(t, user, shipping, payment, now)
            == (Err(LineError(t.catalog, t.carts[user][i])), t)
  {
    CheckLinesFirstFailure(t.catalog, t.carts[user], i);
  }

  /**
   * On a valid set of tables, `createOrder` succeeds exactly when the cart exists, is not
   * empty and every product's total demand is within its stock. On success exactly one
   * order is appended, owned by the user, with the given address and payment method; its
   * lines are the cart's lines in order with the prices copied; its total is the sum over
   * those lines; each product's stock drops by exactly its demand; the user's cart is
   * removed and every other cart is untouched. The tables stay valid in every outcome.
   */
  lemma PlaceOrderSpec(t: Tables, user: UserId, shipping: Address, payment: PaymentMethod, now: Time)
    requires TablesValid(t)
    ensures var (r, t') := PlaceOrder(t, user, shipping, payment, now);
      && TablesValid(t')
      && (r.Ok? <==> user in t.carts && |t.carts[user]| > 0 && Fits(t.catalog, t.carts[user]))
      && (r.Ok? ==>
            var cart := t.carts[user];
            && t'.orders == t.orders + [r.value]
            && r.value.id == |t.orders|
            && r.value.user == user
            && r.value.shippingAddress == shipping && r.value.paymentMethod == payment
            && r.value.status == Placed && r.value.createdAt == now && r.value.deliveredAt.None?
            && |r.value.items| == |cart|
            && (forall i :: 0 <= i < |cart| ==>
                  r.value.items[i] == OrderLine(cart[i].product, cart[i].quantity,
                                                t.catalog[cart[i].product].price))
            && r.value.total == LinesTotal(r.value.items)
            && t'.catalog.Keys == t.catalog.Keys
            && (forall p :: p in t.catalog ==>
                  t'.catalog[p] == t.catalog[p].(stock := t.catalog[p].stock - Demand(cart, p)))
            && t'.carts == t.carts - {user})
  {
    var (r, t') := PlaceOrder(t, user, shipping, payment, now);
    if user in t.carts && |t.carts[user]| > 0 {
      var cart := t.carts[user];
      if Fits(t.catalog, cart) {
        FitsPassesCheck(t.catalog, cart);
      }
      if CheckLines(t.catalog, cart).None? {
        ApplyDecrementsValid(t.catalog, cart);
        ApplyDecrementsOk(t.catalog, cart);
        if Fits(t.catalog, cart) {
          ApplyDecrementsStock(t.catalog, cart);
        }
        ReduceIsLinesTotal(0, t.catalog, cart);
        var order := NewOrder(t, user, cart, shipping, payment, now);
        assert t'.orders == t.orders + [order];
      }
    }
  }

  /** The cart's lines name pairwise distinct products. */
  predicate DistinctProducts(lines: seq<CartLine>) {
    forall i, j :: 0 <= i < j < |lines| ==> lines[i].product != lines[j].product
  }

  /** With distinct products, a product's demand is the quantity of its one line. */
  lemma {:induction false} DemandOfDistinct(lines: seq<CartLine>, i: nat)
    requires DistinctProducts(lines) && i < |lines|
    ensures Demand(lines, lines[i].product) == lines[i].quantity
  {
    if i == 0 {
      DemandAbsent(lines[1..], lines[0].product);
    } else {
      DemandOfDistinct(lines[1..], i - 1);
    }
  }

  /**
   * A non-empty cart of distinct products that passes the per-line check is always
   * ordered, and every stock stays at least 0.
   */
  lemma PlaceOrderDistinct(t: Tables, user: UserId, shipping: Address, payment: PaymentMethod, now: Time)
    requires TablesValid(t)
    requires user in t.carts && |t.carts[user]| > 0 && DistinctProducts(t.carts[user])
    requires forall i :: 0 <= i < |t.carts[user]| ==> LineOk(t.catalog, t.carts[user][i])
    ensures PlaceOrder(t, user, shipping, payment, now).0.Ok?
    ensures forall p :: p in PlaceOrder(t, user, shipping, payment, now).1.catalog ==>
      PlaceOrder(t, user, shipping, payment, now).1.catalog[p].stock >= 0
  {
    var cart := t.carts[user];
    forall i | 0 <= i < |cart|
      ensures cart[i].product in t.catalog && Demand(cart, cart[i].product) <= t.catalog[cart[i].product].stock
    {
      DemandOfDistinct(cart, i);
    }
    PlaceOrderSpec(t, user, shipping, payment, now);
  }

  /**
   * The decrements stop at line `k`: every earlier save succeeded and left the final
   * catalog, and line `k` is for a missing product or asks for more than is left.
   */
  ghost predicate FailsAt(c: Catalog, lines: seq<CartLine>, k: nat)
    requires k < |lines|
  {
    var before := ApplyDecrements(c, lines[..k]);
    && before.ok
    && ApplyDecrements(c, lines).catalog == before.catalog
    && (lines[k].product in before.catalog ==>
          lines[k].quantity > before.catalog[lines[k].product].stock)
  }

  /**
   * When a save fails, the catalog is the one left by the lines before the failing
   * line `k`: all of their saves succeeded, and line `k` is for a missing product or
   * asks for more than its product's remaining stock.
   */
  lemma {:induction false} ApplyDecrementsFailure(c: Catalog, lines: seq<CartLine>)
    requires CatalogValid(c)
    requires !ApplyDecrements(c, lines).ok
    ensures exists k :: 0 <= k < |lines| && FailsAt(c, lines, k)
  {
    var p := lines[0].product;
    assert lines[..0] == [];
    if p !in c {
      assert FailsAt(c, lines, 0);
    } else {
      Products.RestockValid(c[p], c[p].stock - lines[0].quantity);
      if !Products.Valid(c[p].(stock := c[p].stock - lines[0].quantity)) {
        assert FailsAt(c, lines, 0);
      } else {
        ApplyDecrementsValid(c, [lines[0]]);
        assert AfterFirst(c, lines) == ApplyDecrements(c, [lines[0]]).catalog;
        ApplyDecrementsFailure(AfterFirst(c, lines), lines[1..]);
        var k :| 0 <= k < |lines[1..]| && FailsAt(AfterFirst(c, lines), lines[1..], k);
        FailsAtShift(c, lines, k);
      }
    }
  }

  /** A failure at line `k` of the rest of the cart is a failure at line `k + 1` of the whole cart. */
  lemma FailsAtShift(c: Catalog, lines: seq<CartLine>, k: nat)
    requires 0 < |lines| && lines[0].product in c
    requires Products.Valid(c[lines[0].product].(stock := c[lines[0].product].stock - lines[0].quantity))
    requires k < |lines| - 1 && FailsAt(AfterFirst(c, lines), lines[1..], k)
    ensures FailsAt(c, lines, k + 1)
  {
    var c' := AfterFirst(c, lines);
    assert lines[..k + 1][0] == lines[0];
    assert lines[..k + 1][1..] == lines[1..][..k];
    assert ApplyDecrements(c, lines[..k + 1]) == ApplyDecrements(c', lines[1..][..k]);
    assert ApplyDecrements(c, lines) == ApplyDecrements(c', lines[1..]);
    assert lines[k + 1] == lines[1..][k];
  }

  /**
   * A cart that passes the per-line check but whose total demand for some product exceeds
   * its stock: the save of the decrement that would go below 0 throws, after the order was
   * saved. The answer is a server error; yet the order built from the cart was appended,
   * the decrements of the lines before the failing one stand (and no later one), and the
   * cart is not deleted.
   */
  lemma PlaceOrderPartialFailure(t: Tables, user: UserId, shipping: Address, payment: PaymentMethod, now: Time)
    requires TablesValid(t)
    requires user in t.carts && |t.carts[user]| > 0
    requires forall i :: 0 <= i < |t.carts[user]| ==> LineOk(t.catalog, t.carts[user][i])
    requires !Fits(t.catalog, t.carts[user])
    ensures var (r, t') := PlaceOrder(t, user, shipping, payment, now);
      var cart := t.carts[user];
      && r == Err(ServerError)
      && t'.orders == t.orders + [NewOrder(t, user, cart, shipping, payment, now)]
      && t'.carts == t.carts
      && exists k :: 0 <= k < |cart|
           && ApplyDecrements(t.catalog, cart[..k]).ok
           && t'.catalog == ApplyDecrements(t.catalog, cart[..k]).catalog
           && cart[k].product in t'.catalog
           && cart[k].quantity > t'.catalog[cart[k].product].stock
  {
    var cart := t.carts[user];
    ApplyDecrementsOk(t.catalog, cart);
    ApplyDecrementsFailure(t.catalog, cart);
    var k :| 0 <= k < |cart| && FailsAt(t.catalog, cart, k);
    ApplyDecrementsStock(t.catalog, cart[..k]);
  }

  /**
   * The smallest such cart: one product with 1 unit in stock, and two lines of 1 unit
   * each. Both lines pass the check, the order is recorded, the stock ends at 0, the
   * request fails with a server error and the cart is not deleted.
   */
  lemma DuplicateLineCounterexample()
    ensures var p := Products.Product("Mug", "A mug", 500, "Kitchen", 1, 0);
      var t := Tables(map["p" := p], map["u" := [CartLine("p", 1), CartLine("p", 1)]], []);
      var (r, t') := PlaceOrder(t, "u", "1 Main St", "card", 7);
      && TablesValid(t)
      && CheckLines(t.catalog, t.carts["u"]) == None
      && r == Err(ServerError)
      && |t'.orders| == 1 && t'.orders[0].total == 1000
      && t'.catalog["p"].stock == 0
      && t'.carts == t.carts
  {
    var p := Products.Product("Mug", "A mug", 500, "Kitchen", 1, 0);
    var cart := [CartLine("p", 1), CartLine("p", 1)];
    var c := map["p" := p];
    assert Products.Trimmed("Mug");
    assert LineOk(c, cart[0]) && LineOk(c, cart[1]);
    var c1 := c["p" := p.(stock := 0)];
    assert cart[1..] == [CartLine("p", 1)];
    assert ApplyDecrements(c, cart) == ApplyDecrements(c1, cart[1..]);
    assert !Products.Valid(p.(stock := -1));
    assert ApplyDecrements(c1, cart[1..]) == StockUpdate(c1, false);
    assert Reduce(0, c, cart) == Reduce(500, c, cart[1..]) == Reduce(1000, c, []);
  }

  /**
   * Right after a partial failure, retrying the same cart is rejected by the per-line
   * check, because the failing line now asks for more than is left: the answer names
   * the product of the first line that fails against the stock now left, and nothing
   * changes.
   */
  lemma RetryAfterPartialFailure(t: Tables, user: UserId, shipping: Address, payment: PaymentMethod,
                                 now: Time, later: Time)
    requires TablesValid(t)
    requires user in t.carts && |t.carts[user]| > 0
    requires forall i :: 0 <= i < |t.carts[user]| ==> LineOk(t.catalog, t.carts[user][i])
    requires !Fits(t.catalog, t.carts[user])
    ensures var t' := PlaceOrder(t, user, shipping, payment, now).1;
      var (r, t'') := PlaceOrder(t', user, shipping, payment, later);
      var cart := t.carts[user];
      && t'' == t'
      && r.Err? && r.error.Unavailable?
      && exists i :: 0 <= i < |cart| && !LineOk(t'.catalog, cart[i])
           && (forall j :: 0 <= j < i ==> LineOk(t'.catalog, cart[j]))
           && cart[i].product in t'.catalog
           && r.error == Unavailable(t'.catalog[cart[i].product].name)
  {
    PlaceOrderPartialFailure(t, user, shipping, payment, now);
    var t' := PlaceOrder(t, user, shipping, payment, now).1;
    var cart := t.carts[user];
    var k :| 0 <= k < |cart| && cart[k].product in t'.catalog
             && cart[k].quantity > t'.catalog[cart[k].product].stock;
    assert !LineOk(t'.catalog, cart[k]);
    ApplyDecrementsValid(t.catalog, cart);
    assert t'.catalog.Keys == t.catalog.Keys;
    var e := CheckLines(t'.catalog, cart);
    assert e.Some?;
    var i :| 0 <= i < |cart| && !LineOk(t'.catalog, cart[i])
             && (forall j :: 0 <= j < i ==> LineOk(t'.catalog, cart[j]))
             && e.value == LineError(t'.catalog, cart[i]);
    assert cart[i].product in t'.catalog;
    assert t'.carts[user] == cart;
  }

  /**
   * The cart kept after a partial failure is still live: once the catalog is restocked so
   * that the cart fits (prices unchanged), ordering succeeds again and records a second
   * order with the same lines, so the one cart has produced two orders.
   */
  lemma ReorderAfterRestock(t: Tables, user: UserId, shipping: Address, payment: PaymentMethod,
                            now: Time, restocked: Catalog, later: Time)
    requires TablesValid(t)
    requires user in t.carts && |t.carts[user]| > 0
    requires forall i :: 0 <= i < |t.carts[user]| ==> LineOk(t.catalog, t.carts[user][i])
    requires !Fits(t.catalog, t.carts[user])
    requires CatalogValid(restocked) && Fits(restocked, t.carts[user])
    requires forall p :: p in t.catalog ==> p in restocked && restocked[p].price == t.catalog[p].price
    ensures var t' := PlaceOrder(t, user, shipping, payment, now).1;
      var (r, t'') := PlaceOrder(t'.(catalog := restocked), user, shipping, payment, later);
      && r.Ok?
      && |t''.orders| == |t.orders| + 2
      && t''.orders[|t.orders|].items == t''.orders[|t.orders| + 1].items
  {
    var cart := t.carts[user];
    PlaceOrderSpec(t, user, shipping, payment, now);
    PlaceOrderPartialFailure(t, user, shipping, payment, now);
    var t' := PlaceOrder(t, user, shipping, payment, now).1;
    var t2 := t'.(catalog := restocked);
    assert t2.carts[user] == cart;
    PlaceOrderSpec(t2, user, shipping, payment, later);
    assert t'.orders[|t.orders|].items == OrderLines(t.catalog, cart);
  }

  /**
   * Two products (price 10 with 5 in stock, price 3 with 1 in stock) ordered 2 and 1 at a
   * time: the order totals 23, the stocks become 3 and 0, and the cart is gone.
   */
  lemma TwoProductOrder()
    ensures var p1 := Products.Product("Pen", "A pen", 10, "Office", 5, 0);
      var p2 := Products.Product("Pad", "A pad", 3, "Office", 1, 0);
      var t := Tables(map["p1" := p1, "p2" := p2], map["u" := [CartLine("p1", 2), CartLine("p2", 1)]], []);
      var (r, t') := PlaceOrder(t, "u", "1 Main St", "card", 7);
      && r.Ok? && r.value.total == 23
      && "p1" in t'.catalog && t'.catalog["p1"].stock == 3
      && "p2" in t'.catalog && t'.catalog["p2"].stock == 0
      && "u" !in t'.carts
  {
    var p1 := Products.Product("Pen", "A pen", 10, "Office", 5, 0);
    var p2 := Products.Product("Pad", "A pad", 3, "Office", 1, 0);
    var cart := [CartLine("p1", 2), CartLine("p2", 1)];
    var t := Tables(map["p1" := p1, "p2" := p2], map["u" := cart], []);
    assert Products.Trimmed("Pen") && Products.Trimmed("Pad");
    assert cart[1..] == [CartLine("p2", 1)];
    assert Demand(cart, "p1") == 2 && Demand(cart, "p2") == 1;
    PlaceOrderSpec(t, "u", "1 Main St", "card", 7);
    assert Reduce(0, t.catalog, cart) == Reduce(20, t.catalog, cart[1..]) == Reduce(23, t.catalog, []);
    ReduceIsLinesTotal(0, t.catalog, cart);
  }

  /**
   * A line asking for 2 units of a product with 1 in stock: the answer names the product,
   * its stock stays 1 and the cart keeps its line.
   */
  lemma OverQuantityRejected()
    ensures var p := Products.Product("Pen", "A pen", 10, "Office", 1, 0);
      var t := Tables(map["p1" := p], map["u" := [CartLine("p1", 2)]], []);
      PlaceOrder(t, "u", "1 Main St", "card", 7) == (Err(Unavailable("Pen")), t)
  {
    var p := Products.Product("Pen", "A pen", 10, "Office", 1, 0);
    var t := Tables(map["p1" := p], map["u" := [CartLine("p1", 2)]], []);
    PlaceOrderUnavailable(t, "u", "1 Main St", "card", 7, 0);
  }

  // ---------------------------------------------------------------------------
  // The workflow as evidently intended: check the total demand per product
  // ---------------------------------------------------------------------------

  /** A line passes the corrected check: its product exists and covers the cart's total demand for it. */
  predicate DemandOk(c: Catalog, cart: seq<CartLine>, line: CartLine) {
    line.product in c && c[line.product].stock >= Demand(cart, line.product)
  }

  /** The corrected check over the lines in order: the error of the first failing line, if any. */
  function CheckDemand(c: Catalog, cart: seq<CartLine>, lines: seq<CartLine>): (r: Option<Error>)
    ensures r.None? <==> forall i :: 0 <= i < |lines| ==> DemandOk(c, cart, lines[i])
  {
    if lines == [] then None
    else if !DemandOk(c, cart, lines[0]) then Some(LineError(c, lines[0]))
    else
      assert forall i :: 1 <= i < |lines| ==> lines[i] == lines[1..][i - 1];
      CheckDemand(c, cart, lines[1..])
  }

  /** `createOrder` with the corrected check; everything after the check is unchanged. */
  function PlaceOrderAtomic(t: Tables, user: UserId, shipping: Address, payment: PaymentMethod,
                            now: Time): (Result<Order, Error>, Tables)
  {
    if user !in t.carts || |t.carts[user]| == 0 then (Err(NoItems), t)
    else
      var cart := t.carts[user];
      match CheckDemand(t.catalog, cart, cart)
      case Some(e) => (Err(e), t)
      case None =>
        assert InCatalog(t.catalog, cart) by {
          assert forall i :: 0 <= i < |cart| ==> DemandOk(t.catalog, cart, cart[i]);
        }
        Commit(t, user, cart, shipping, payment, now)
  }

  /**
   * The corrected workflow fails without touching any table, succeeds exactly when the
   * cart is non-empty and fits the stock, and then does what the as-written one does.
   */
  lemma PlaceOrderAtomicIsAtomic(t: Tables, user: UserId, shipping: Address, payment: PaymentMethod, now: Time)
    requires TablesValid(t)
    ensures var (r, t') := PlaceOrderAtomic(t, user, shipping, payment, now);
      && TablesValid(t')
      && (r.Err? ==> t' == t)
      && (r.Ok? <==> user in t.carts && |t.carts[user]| > 0 && Fits(t.catalog, t.carts[user]))
      && (r.Ok? ==> (r, t') == PlaceOrder(t, user, shipping, payment, now))
  {
    PlaceOrderSpec(t, user, shipping, payment, now);
    if user in t.carts && |t.carts[user]| > 0 {
      var cart := t.carts[user];
      ApplyDecrementsValid(t.catalog, cart);
      ApplyDecrementsOk(t.catalog, cart);
      if Fits(t.catalog, cart) {
        forall i | 0 <= i < |cart| ensures DemandOk(t.catalog, cart, cart[i]) { }
      }
      if CheckDemand(t.catalog, cart, cart).None? {
        assert Fits(t.catalog, cart) by {
          forall i | 0 <= i < |cart|
            ensures cart[i].product in t.catalog && Demand(cart, cart[i].product) <= t.catalog[cart[i].product].stock
          {
            assert DemandOk(t.catalog, cart, cart[i]);
          }
        }
        FitsPassesCheck(t.catalog, cart);
      }
    }
  }
}
