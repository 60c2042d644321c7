/**
 * The order controller's state-changing handlers as methods on the three tables:
 * `createOrder` (two loops over the cart, stock decremented in place, the order
 * inserted, the cart deleted) and `updateOrderToDelivered` (two fields of one order
 * assigned in place). Each is proved against the function that specifies it.
 */
module OrderStore {
  import opened Wrappers
  import Products
  import opened OrderTypes
  import opened OrderPlacement
  import OrderQueries

  class Store {
    var catalog: Catalog
    var carts: Carts
    var orders: seq<Order>

    ghost predicate Valid()
      reads this
    {
      TablesValid(Tables(catalog, carts, orders))
    }

    /** The three tables as one value. */
    function Snapshot(): Tables
      reads this
    {
      Tables(catalog, carts, orders)
    }

    constructor (catalog: Catalog, carts: Carts)
      requires CatalogValid(catalog)
      ensures Valid()
      ensures Snapshot() == Tables(catalog, carts, [])
    {
      this.catalog := catalog;
      this.carts := carts;
      this.orders := [];
    }

    /**
     * The decrement loop of `createOrder`: each line re-reads its product, lowers its
     * stock and saves it; a save the schema rejects stops the loop and reports failure.
     */
    method DecrementStock(cart: seq<CartLine>) returns (ok: bool)
      modifies this`catalog
      ensures ok == ApplyDecrements(old(catalog), cart).ok
      ensures catalog == ApplyDecrements(old(catalog), cart).catalog
    {
      var i := 0;
      assert cart[0..] == cart;
      while i < |cart|
        invariant 0 <= i <= |cart|
        invariant ApplyDecrements(old(catalog), cart) == ApplyDecrements(catalog, cart[i..])
      {
        assert cart[i..][1..] == cart[i + 1..];
        var line := cart[i];
        if line.product !in catalog {
          // the product is gone: reading its stock throws
          return false;
        }
        var updated := catalog[line.product].(stock := catalog[line.product].stock - line.quantity);
        if !Products.Valid(updated) {
          // save() runs the validators and throws
          return false;
        }
        catalog := catalog[line.product := updated];
        i := i + 1;
      }
      return true;
    }

    /**
     * `createOrder` for `user`: the response, and the tables changed exactly as
     * `PlaceOrder` says (properties of that function are proved in OrderPlacement).
     */
    method CreateOrder(user: UserId, shipping: Address, payment: PaymentMethod, now: Time)
      returns (r: Result<Order, Error>)
      requires Valid()
      modifies this
      ensures Valid()
      ensures (r, Snapshot()) == PlaceOrder(old(Snapshot()), user, shipping, payment, now)
    {
      PlaceOrderSpec(Snapshot(), user, shipping, payment, now);
      if user !in carts || |carts[user]| == 0 {
        return Err(NoItems);
      }
      var cart := carts[user];
      // Check that every product is available
      var i := 0;
      assert cart[0..] == cart;
      while i < |cart|
        invariant 0 <= i <= |cart|
        invariant CheckLines(catalog, cart) == CheckLines(catalog, cart[i..])
      {
        assert cart[i..][1..] == cart[i + 1..];
        var line := cart[i];
        if line.product !in catalog {
          // the populated product is null: reading its id throws
          return Err(ServerError);
        }
        if catalog[line.product].stock < line.quantity {
          return Err(Unavailable(catalog[line.product].name));
        }
        i := i + 1;
      }
      // Prepare the order lines, compute the total, save the order, update the stock, clear the cart
      r := CommitOrder(user, cart, shipping, payment, now);
    }

    /**
     * `createOrder` with the availability check comparing each product's stock with the
     * cart's total demand for it, so that the decrements cannot fail part-way.
     */
    method CreateOrderAtomic(user: UserId, shipping: Address, payment: PaymentMethod, now: Time)
      returns (r: Result<Order, Error>)
      requires Valid()
      modifies this
      ensures Valid()
      ensures (r, Snapshot()) == PlaceOrderAtomic(old(Snapshot()), user, shipping, payment, now)
      ensures r.Err? ==> Snapshot() == old(Snapshot())
    {
      PlaceOrderAtomicIsAtomic(Snapshot(), user, shipping, payment, now);
      if user !in carts || |carts[user]| == 0 {
        return Err(NoItems);
      }
      var cart := carts[user];
      var i := 0;
      assert cart[0..] == cart;
      while i < |cart|
        invariant 0 <= i <= |cart|
        invariant CheckDemand(catalog, cart, cart) == CheckDemand(catalog, cart, cart[i..])
      {
        assert cart[i..][1..] == cart[i + 1..];
        var line := cart[i];
        if line.product !in catalog {
          return Err(ServerError);
        }
        if catalog[line.product].stock < Demand(cart, line.product) {
          return Err(Unavailable(catalog[line.product].name));
        }
        i := i + 1;
      }
      r := CommitOrder(user, cart, shipping, payment, now);
    }

    /**
     * The part of `createOrder` after the check: the order is built and saved, the stock
     * of each line is decremented in place, and the cart is deleted if every save succeeded.
     */
    method CommitOrder(user: UserId, cart: seq<CartLine>, shipping: Address, payment: PaymentMethod,
                       now: Time) returns (r: Result<Order, Error>)
      requires InCatalog(catalog, cart)
      modifies this
      ensures (r, Snapshot()) == Commit(old(Snapshot()), user, cart, shipping, payment, now)
    {
      var order := NewOrder(Snapshot(), user, cart, shipping, payment, now);
      orders := orders + [order];
      var ok := DecrementStock(cart);
      if !ok {
        return Err(ServerError);
      }
      carts := carts - {user};
      return Ok(order);
    }

    /**
     * `updateOrderToDelivered`: an existing order gets status delivered and the given
     * delivery time, and no other order, field or table changes; an absent id is
     * "Order not found" and nothing changes. A delivered order may be delivered again.
     */
    method MarkDelivered(id: OrderId, now: Time) returns (r: Result<Order, Error>)
      requires Valid()
      modifies this`orders
      ensures Valid()
      ensures id < |old(orders)| ==>
        && orders == old(orders)[id := OrderQueries.Deliver(old(orders)[id], now)]
        && r == Ok(orders[id])
      ensures id >= |old(orders)| ==> orders == old(orders) && r == Err(NotFound)
    {
      if id < |orders| {
        OrderQueries.DeliverKeepsTablesValid(Snapshot(), id, now);
        var order := orders[id];
        order := order.(status := Delivered, deliveredAt := Some(now));
        orders := orders[id := order];
        return Ok(order);
      } else {
        return Err(NotFound);
      }
    }
  }
}
