/**
 * The in-memory tables the order controller reads and writes, replacing the
 * document store: the catalog (product id to product), the carts (user id to
 * the cart's lines) and the orders (a sequence; an order's id is its position).
 */
module OrderTypes {
  import opened Wrappers
  import Products

  type ProductId = string
  type UserId = string
  type OrderId = nat
  type Time = int

  /** Passed through from the request body to the order unchanged. */
  type Address = string
  type PaymentMethod = string

  datatype CartLine = CartLine(product: ProductId, quantity: nat)

  /** A line of an order: the price is a copy taken when the order was placed. */
  datatype OrderLine = OrderLine(product: ProductId, quantity: nat, price: int)

  datatype Status = Placed | Delivered

  datatype Order = Order(
    id: OrderId,
    user: UserId,
    items: seq<OrderLine>,
    total: int,
    shippingAddress: Address,
    paymentMethod: PaymentMethod,
    status: Status,
    createdAt: Time,
    deliveredAt: Option<Time>)

  /** The error responses of the controller. */
  datatype Error =
    | NoItems                          // 400 "No items in cart"
    | Unavailable(productName: string) // 400 "Product <name> is not available in the requested quantity"
    | NotAuthorized                    // 401 "Not authorized"
    | NotFound                         // 404 "Order not found"
    | ServerError                      // 500 "Server error": any exception caught by the handler

  /** The authenticated user making a request. */
  datatype Requester = Requester(id: UserId, role: string)

  const AdminRole: string := "admin"

  type Catalog = map<ProductId, Products.Product>
  type Carts = map<UserId, seq<CartLine>>

  datatype Tables = Tables(catalog: Catalog, carts: Carts, orders: seq<Order>)

  /** Every catalog entry passes the product schema's validators. */
  ghost predicate CatalogValid(c: Catalog) {
    forall p :: p in c ==> Products.Valid(c[p])
  }

  /** The sum of price times quantity over order lines. */
  function LinesTotal(items: seq<OrderLine>): int {
    if items == [] then 0 else items[0].price * items[0].quantity + LinesTotal(items[1..])
  }

  /**
   * The tables' invariant: the catalog is valid, each order sits at the position
   * given by its id, each order line carries a non-negative price (a copy of a valid
   * product's price), and each order's total is the sum over its lines.
   */
  ghost predicate TablesValid(t: Tables) {
    && CatalogValid(t.catalog)
    && (forall i :: 0 <= i < |t.orders| ==> t.orders[i].id == i)
    && (forall i :: 0 <= i < |t.orders| ==> PricesNonNegative(t.orders[i].items))
    && (forall i :: 0 <= i < |t.orders| ==> t.orders[i].total == LinesTotal(t.orders[i].items))
  }

  predicate PricesNonNegative(items: seq<OrderLine>) {
    forall i :: 0 <= i < |items| ==> items[i].price >= 0
  }

  /** An order whose lines all carry a non-negative price has a non-negative total. */
  lemma {:induction false} LinesTotalNonNegative(items: seq<OrderLine>)
    requires PricesNonNegative(items)
    ensures LinesTotal(items) >= 0
  {
    if items != [] {
      LinesTotalNonNegative(items[1..]);
    }
  }

  /** Every order the tables hold has a non-negative total. */
  lemma StoredTotalsNonNegative(t: Tables)
    requires TablesValid(t)
    ensures forall i :: 0 <= i < |t.orders| ==> t.orders[i].total >= 0
  {
    forall i | 0 <= i < |t.orders| ensures t.orders[i].total >= 0 {
      LinesTotalNonNegative(t.orders[i].items);
    }
  }
}
