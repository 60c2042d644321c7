/**
 * The reading handlers of controllers/orderController.js (`getOrderById`,
 * `getMyOrders`, `getOrders`) over the orders table, and the field update that
 * `updateOrderToDelivered` applies to one order.
 */
module OrderQueries {
  import opened Wrappers
  import opened OrderTypes

  /** The requester may see the order: they own it or hold the admin role. */
  predicate MaySee(o: Order, requester: Requester) {
    o.user == requester.id || requester.role == AdminRole
  }

  /**
   * `getOrderById`: the order if it exists and the requester may see it; "Not authorized"
   * for an existing order anyone else asks for; "Order not found" for an absent id.
   */
  function GetOrderById(orders: seq<Order>, id: OrderId, requester: Requester): (r: Result<Order, Error>)
    ensures r.Ok? <==> id < |orders| && MaySee(orders[id], requester)
    ensures r.Ok? ==> r.value == orders[id]
    ensures r == Err(NotAuthorized) <==> id < |orders| && !MaySee(orders[id], requester)
    ensures r == Err(NotFound) <==> id >= |orders|
  {
    if id < |orders| then
      if orders[id].user != requester.id && requester.role != AdminRole then Err(NotAuthorized)
      else Ok(orders[id])
    else Err(NotFound)
  }

  /**
   * `getMyOrders`: the orders owned by `user`. Each order of `user` appears as often as in
   * the table, and no order of anyone else appears.
   */
  function GetMyOrders(orders: seq<Order>, user: UserId): (r: seq<Order>)
    ensures forall o :: multiset(r)[o] == if o.user == user then multiset(orders)[o] else 0
  {
    if orders == [] then []
    else
      var rest := GetMyOrders(orders[1..], user);
      assert orders == [orders[0]] + orders[1..];
      if orders[0].user == user then [orders[0]] + rest else rest
  }

  /**
   * `getOrders`: every order in the table, each as often as it is stored, and each of
   * which its owner also sees in their own list.
   */
  function GetOrders(orders: seq<Order>): (r: seq<Order>)
    ensures multiset(r) == multiset(orders)
    ensures forall i :: 0 <= i < |r| ==> r[i] in GetMyOrders(orders, r[i].user)
  {
    assert forall i :: 0 <= i < |orders| ==> multiset(orders)[orders[i]] > 0;
    orders
  }

  /**
   * A user who is not an admin can open exactly the orders their own list holds: an
   * order they may open is in their list, and every order in their list can be opened
   * by its id.
   */
  lemma OwnListMatchesAccess(orders: seq<Order>, requester: Requester, id: OrderId)
    requires forall i :: 0 <= i < |orders| ==> orders[i].id == i
    requires requester.role != AdminRole
    ensures GetOrderById(orders, id, requester).Ok? ==>
      GetOrderById(orders, id, requester).value in GetMyOrders(orders, requester.id)
    ensures forall o :: o in GetMyOrders(orders, requester.id) ==>
      o.id < |orders| && GetOrderById(orders, o.id, requester) == Ok(o)
  {
    if id < |orders| {
      assert orders[id] in multiset(orders);
    }
    forall o | o in GetMyOrders(orders, requester.id)
      ensures o.id < |orders| && GetOrderById(orders, o.id, requester) == Ok(o)
    {
      assert multiset(GetMyOrders(orders, requester.id))[o] > 0;
      assert o in multiset(orders);
      var i :| 0 <= i < |orders| && orders[i] == o;
    }
  }

  /** The fields `updateOrderToDelivered` sets: the status, and the delivery time. */
  function Deliver(o: Order, now: Time): (r: Order)
    ensures r.status == Delivered && r.deliveredAt == Some(now)
    ensures r.(status := o.status, deliveredAt := o.deliveredAt) == o
  {
    o.(status := Delivered, deliveredAt := Some(now))
  }

  /**
   * Nothing guards against delivering twice: a second delivery succeeds and only
   * re-stamps the time, as if the first had not happened.
   */
  lemma RedeliveryRestamps(o: Order, first: Time, second: Time)
    ensures Deliver(Deliver(o, first), second) == Deliver(o, second)
    ensures Deliver(Deliver(o, first), second).deliveredAt == Some(second)
  {
  }

  /** Delivery keeps an order's id, owner, lines and total, so the tables stay valid. */
  lemma DeliverKeepsTablesValid(t: Tables, id: OrderId, now: Time)
    requires TablesValid(t) && id < |t.orders|
    ensures TablesValid(t.(orders := t.orders[id := Deliver(t.orders[id], now)]))
  {
  }
}
