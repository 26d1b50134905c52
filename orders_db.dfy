/**
 * The orders database of the web service (`orders.db`): the legacy `order`
 * table, the `client_order` table and the `payment_log` table. Nullable
 * columns are `Option`s; `quantity` is stored as a float and is modelled as
 * an exact `real`.
 */
module OrdersDb {
  import opened Common

  /** A row of the legacy `order` table. */
  datatype Order = Order(
    id: string,
    name: string,
    phoneNumber: string,
    district: string,
    tc: string,
    birthday: string,
    address: string,
    email: string,
    quantity: real,
    quantityText: string,
    price: Option<int>,
    remainingAmount: Option<int>,
    isReceiptDone: Option<bool>,
    isGtsDone: Option<bool>,
    cargoBarcode: Option<string>,
    gtsBarcode: Option<string>,
    source: Option<string>,
    orderType: Option<string>,
    lastUpdate: Option<string>,
    purchaseDate: Option<string>,
    activityLogId: Option<string>,
    comments: Option<string>,
    deliveryStatus: Option<string>)

  /** A row of the `client_order` table. */
  datatype ClientOrder = ClientOrder(
    id: string,
    clientId: string,
    quantity: real,
    quantityText: string,
    price: Option<int>,
    remainingAmount: Option<int>,
    isReceiptDone: Option<bool>,
    isGtsDone: Option<bool>,
    cargoBarcode: Option<string>,
    gtsBarcode: Option<string>,
    orderType: Option<string>,
    lastUpdate: Option<string>,
    purchaseDate: Option<string>,
    comments: Option<string>,
    deliveryStatus: Option<string>,
    yieldType: Option<string>,
    intermediarId: Option<string>,
    intermediarAmount: Option<int>,
    productType: Option<string>)

  /** A row of the `payment_log` table; `payMethod` is the `method` column. */
  datatype PaymentLog = PaymentLog(
    id: string,
    orderId: string,
    amount: int,
    paymentDate: string,
    payMethod: string,
    note: string)

  /** `id` is the primary key of each table. */
  ghost predicate UniqueOrderIds(orders: seq<Order>) {
    forall i, j :: 0 <= i < j < |orders| ==> orders[i].id != orders[j].id
  }

  ghost predicate UniqueClientOrderIds(orders: seq<ClientOrder>) {
    forall i, j :: 0 <= i < j < |orders| ==> orders[i].id != orders[j].id
  }

  ghost predicate UniquePaymentIds(payments: seq<PaymentLog>) {
    forall i, j :: 0 <= i < j < |payments| ==> payments[i].id != payments[j].id
  }

  /**
   * The position of the row whose primary key is `id`, as `db.session.get`
   * and `Model.query.get` find it; `key` reads the primary key of a row.
   */
  function FindBy<T>(rows: seq<T>, key: T -> string, id: string): (r: Option<nat>)
    ensures r.None? <==> forall i :: 0 <= i < |rows| ==> key(rows[i]) != id
    ensures r.Some? ==> r.value < |rows| && key(rows[r.value]) == id
  {
    if |rows| == 0 then None
    else if key(rows[0]) == id then Some(0)
    else
      assert forall i :: 0 < i < |rows| ==> rows[i] == rows[1..][i - 1];
      match FindBy(rows[1..], key, id)
      case None => None
      case Some(i) => Some(i + 1)
  }

  function OrderKey(o: Order): string { o.id }

  function ClientOrderKey(o: ClientOrder): string { o.id }

  /** Some payment already has the primary key `id`. */
  predicate PaymentExists(payments: seq<PaymentLog>, id: string) {
    exists i :: 0 <= i < |payments| && payments[i].id == id
  }

  /** The three tables, each in query order. */
  class OrdersDb {
    var orders: seq<Order>
    var clientOrders: seq<ClientOrder>
    var payments: seq<PaymentLog>

    ghost predicate Valid()
      reads this
    {
      UniqueOrderIds(orders) && UniqueClientOrderIds(clientOrders) && UniquePaymentIds(payments)
    }

    constructor (orders0: seq<Order>, clientOrders0: seq<ClientOrder>, payments0: seq<PaymentLog>)
      requires UniqueOrderIds(orders0) && UniqueClientOrderIds(clientOrders0) && UniquePaymentIds(payments0)
      ensures Valid()
      ensures orders == orders0 && clientOrders == clientOrders0 && payments == payments0
    {
      orders := orders0;
      clientOrders := clientOrders0;
      payments := payments0;
    }
  }
}
