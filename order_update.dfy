/**
 * Two endpoints of the web service that change the orders database:
 * `/api/update_order`, a partial update of a legacy order where every field
 * absent from the request keeps its value, and `/payments/add`, which logs a
 * payment and lowers the client order's remaining amount by it.
 */
module OrderUpdate {
  import opened Common
  import opened OrdersDb

  // ---------------------------------------------------------------------
  // update_order

  /**
   * The fields of an update request, by JSON key. `None` means the key is
   * absent and `Some(None)` is an explicit `null`.
   */
  datatype OrderPatch = OrderPatch(
    name: Option<Option<string>>,
    phoneNumber: Option<Option<string>>,
    district: Option<Option<string>>,
    price: Option<Option<int>>,
    quantity: Option<Option<real>>,
    remainingAmount: Option<Option<int>>,
    address: Option<Option<string>>,
    email: Option<Option<string>>,
    quantityText: Option<Option<string>>,
    cargoBarcode: Option<Option<string>>,
    gtsBarcode: Option<Option<string>>,
    tc: Option<Option<string>>,
    birthday: Option<Option<string>>,
    isReceiptDone: Option<Option<bool>>,
    isGTSDone: Option<Option<bool>>,
    source: Option<Option<string>>,
    orderType: Option<Option<string>>,
    activityLogId: Option<Option<string>>,
    purchaseDate: Option<Option<string>>,
    comments: Option<Option<string>>,
    deliveryStatus: Option<Option<string>>)

  /** A request that names no field. */
  const EmptyPatch := OrderPatch(None, None, None, None, None, None, None, None, None, None, None,
                                 None, None, None, None, None, None, None, None, None, None)

  /** The key is present with the value `null`. */
  predicate IsNull<T>(k: Option<Option<T>>) {
    k.Some? && k.value.None?
  }

  /**
   * The request writes `null` into one of the nine `nullable=False` columns
   * of the order table, so the commit raises.
   */
  predicate NullsRequiredColumn(p: OrderPatch) {
    IsNull(p.name) || IsNull(p.phoneNumber) || IsNull(p.district) || IsNull(p.tc) ||
    IsNull(p.birthday) || IsNull(p.address) || IsNull(p.email) || IsNull(p.quantity) ||
    IsNull(p.quantityText)
  }

  /** `data.get(key, field)` for a column that is never `null`. */
  function Required<T>(k: Option<Option<T>>, field: T): T {
    match k
    case Some(Some(v)) => v
    case _ => field
  }

  /**
   * The order after `field = data.get(key, field)` for each of the 21 keys.
   * It exists only for a request that the commit accepts.
   */
  function Merge(o: Order, p: OrderPatch): (r: Order)
    requires !NullsRequiredColumn(p)
    ensures r.id == o.id && r.lastUpdate == o.lastUpdate
    ensures p == EmptyPatch ==> r == o
  {
    o.(name := Required(p.name, o.name),
       phoneNumber := Required(p.phoneNumber, o.phoneNumber),
       district := Required(p.district, o.district),
       price := p.price.GetOr(o.price),
       quantity := Required(p.quantity, o.quantity),
       remainingAmount := p.remainingAmount.GetOr(o.remainingAmount),
       address := Required(p.address, o.address),
       email := Required(p.email, o.email),
       quantityText := Required(p.quantityText, o.quantityText),
       cargoBarcode := p.cargoBarcode.GetOr(o.cargoBarcode),
       gtsBarcode := p.gtsBarcode.GetOr(o.gtsBarcode),
       tc := Required(p.tc, o.tc),
       birthday := Required(p.birthday, o.birthday),
       isReceiptDone := p.isReceiptDone.GetOr(o.isReceiptDone),
       isGtsDone := p.isGTSDone.GetOr(o.isGtsDone),
       source := p.source.GetOr(o.source),
       orderType := p.orderType.GetOr(o.orderType),
       activityLogId := p.activityLogId.GetOr(o.activityLogId),
       purchaseDate := p.purchaseDate.GetOr(o.purchaseDate),
       comments := p.comments.GetOr(o.comments),
       deliveryStatus := p.deliveryStatus.GetOr(o.deliveryStatus))
  }

  /** One key after another: a key of the later request wins. */
  function Later<T>(earlier: Option<T>, later: Option<T>): Option<T> {
    if later.Some? then later else earlier
  }

  /** The request equivalent to sending `p` and then `q`. */
  function Then(p: OrderPatch, q: OrderPatch): OrderPatch {
    OrderPatch(
      Later(p.name, q.name), Later(p.phoneNumber, q.phoneNumber), Later(p.district, q.district),
      Later(p.price, q.price), Later(p.quantity, q.quantity), Later(p.remainingAmount, q.remainingAmount),
      Later(p.address, q.address), Later(p.email, q.email), Later(p.quantityText, q.quantityText),
      Later(p.cargoBarcode, q.cargoBarcode), Later(p.gtsBarcode, q.gtsBarcode), Later(p.tc, q.tc),
      Later(p.birthday, q.birthday), Later(p.isReceiptDone, q.isReceiptDone), Later(p.isGTSDone, q.isGTSDone),
      Later(p.source, q.source), Later(p.orderType, q.orderType), Later(p.activityLogId, q.activityLogId),
      Later(p.purchaseDate, q.purchaseDate), Later(p.comments, q.comments), Later(p.deliveryStatus, q.deliveryStatus))
  }

  /** Two updates in a row are one update with the later value of each key. */
  lemma MergeThen(o: Order, p: OrderPatch, q: OrderPatch)
    requires !NullsRequiredColumn(p) && !NullsRequiredColumn(q)
    ensures !NullsRequiredColumn(Then(p, q))
    ensures Merge(Merge(o, p), q) == Merge(o, Then(p, q))
  {
  }

  /** Sending the same request twice is sending it once. */
  lemma MergeIdempotent(o: Order, p: OrderPatch)
    requires !NullsRequiredColumn(p)
    ensures Merge(Merge(o, p), p) == Merge(o, p)
  {
    MergeThen(o, p, p);
    assert Then(p, p) == p;
  }

  datatype UpdateStatus =
    | OrderUpdated
    | NoSuchOrder
    /** The commit fails on a `null` in a required column; nothing is written. */
    | UpdateRejected

  /** `update_order`: look the order up by the request's `id` and merge the request into it. */
  method UpdateOrder(db: OrdersDb, id: Option<string>, p: OrderPatch) returns (status: UpdateStatus)
    requires db.Valid()
    modifies db
    ensures db.Valid()
    ensures db.clientOrders == old(db.clientOrders) && db.payments == old(db.payments)
    ensures (id.None? || FindBy(old(db.orders), OrderKey, id.value).None?) ==>
      status == NoSuchOrder && db.orders == old(db.orders)
    ensures id.Some? && FindBy(old(db.orders), OrderKey, id.value).Some? && NullsRequiredColumn(p) ==>
      status == UpdateRejected && db.orders == old(db.orders)
    ensures id.Some? && FindBy(old(db.orders), OrderKey, id.value).Some? && !NullsRequiredColumn(p) ==>
      var i := FindBy(old(db.orders), OrderKey, id.value).value;
      status == OrderUpdated && db.orders == old(db.orders)[i := Merge(old(db.orders)[i], p)]
  {
    if id.None? {
      return NoSuchOrder;
    }
    var found := FindBy(db.orders, OrderKey, id.value);
    if found.None? {
      return NoSuchOrder;
    }
    if NullsRequiredColumn(p) {
      // the commit raises on the NOT NULL constraint; the session's changes are discarded
      return UpdateRejected;
    }
    var i := found.value;
    var order := db.orders[i];
    order := order.(name := Required(p.name, order.name));
    order := order.(phoneNumber := Required(p.phoneNumber, order.phoneNumber));
    order := order.(district := Required(p.district, order.district));
    order := order.(price := p.price.GetOr(order.price));
    order := order.(quantity := Required(p.quantity, order.quantity));
    order := order.(remainingAmount := p.remainingAmount.GetOr(order.remainingAmount));
    order := order.(address := Required(p.address, order.address));
    order := order.(email := Required(p.email, order.email));
    order := order.(quantityText := Required(p.quantityText, order.quantityText));
    order := order.(cargoBarcode := p.cargoBarcode.GetOr(order.cargoBarcode));
    order := order.(gtsBarcode := p.gtsBarcode.GetOr(order.gtsBarcode));
    order := order.(tc := Required(p.tc, order.tc));
    order := order.(birthday := Required(p.birthday, order.birthday));
    order := order.(isReceiptDone := p.isReceiptDone.GetOr(order.isReceiptDone));
    order := order.(isGtsDone := p.isGTSDone.GetOr(order.isGtsDone));
    order := order.(source := p.source.GetOr(order.source));
    order := order.(orderType := p.orderType.GetOr(order.orderType));
    order := order.(activityLogId := p.activityLogId.GetOr(order.activityLogId));
    order := order.(purchaseDate := p.purchaseDate.GetOr(order.purchaseDate));
    order := order.(comments := p.comments.GetOr(order.comments));
    order := order.(deliveryStatus := p.deliveryStatus.GetOr(order.deliveryStatus));
    ghost var orders := db.orders;
    db.orders := db.orders[i := order];
    assert forall t :: 0 <= t < |orders| ==> db.orders[t].id == orders[t].id;
    status := OrderUpdated;
  }

  // ---------------------------------------------------------------------
  // add_payment

  /**
   * The fields of a payment request; `payMethod` is the `method` key. `None`
   * means that `payment_date`, `method` or `note` is absent, and for
   * `payment_date` also an explicit `null`.
   */
  datatype PaymentRequest = PaymentRequest(
    paymentId: string,
    paymentDate: Option<string>,
    orderId: string,
    amount: int,
    payMethod: Option<string>,
    note: Option<string>)

  datatype PaymentResponse =
    | PaymentAdded(paymentId: string)
    | PaymentOrderNotFound
    /** The commit fails on the payment's primary key. */
    | DuplicatePayment

  /**
   * The logged payment, with `"Cash"` and `""` as defaults. A missing
   * `payment_date` is left out of the INSERT, so the column default writes
   * `now`, the clock formatted as `%Y-%m-%d %H:%M:%S`.
   */
  function LogEntry(req: PaymentRequest, now: string): PaymentLog {
    PaymentLog(req.paymentId, req.orderId, req.amount, req.paymentDate.GetOr(now),
               req.payMethod.GetOr("Cash"), req.note.GetOr(""))
  }

  /** `remaining_amount or 0`. */
  function RemainingOrZero(o: ClientOrder): int {
    o.remainingAmount.GetOr(0)
  }

  /** `order.remaining_amount = (order.remaining_amount or 0) - amount`. */
  function Pay(o: ClientOrder, amount: int): ClientOrder {
    o.(remainingAmount := Some(RemainingOrZero(o) - amount))
  }

  /** Two payments lower the remaining amount by their sum. */
  lemma PayTwice(o: ClientOrder, a: int, b: int)
    ensures Pay(Pay(o, a), b) == Pay(o, a + b)
  {
  }

  /** The logged payments of one order. */
  function Paid(payments: seq<PaymentLog>, orderId: string): int {
    if |payments| == 0 then 0
    else
      var last := payments[|payments| - 1];
      Paid(payments[..|payments| - 1], orderId) + (if last.orderId == orderId then last.amount else 0)
  }

  lemma PaidSnoc(payments: seq<PaymentLog>, entry: PaymentLog, orderId: string)
    ensures Paid(payments + [entry], orderId) ==
      Paid(payments, orderId) + (if entry.orderId == orderId then entry.amount else 0)
  {
    assert (payments + [entry])[..|payments|] == payments;
  }

  /**
   * A payment moves money from the remaining amount to the log: for every
   * client order, the remaining amount plus its logged payments is unchanged.
   */
  lemma PaymentKeepsBalance(orders: seq<ClientOrder>, payments: seq<PaymentLog>, i: nat, req: PaymentRequest, now: string)
    requires UniqueClientOrderIds(orders)
    requires i < |orders| && orders[i].id == req.orderId
    ensures var after := orders[i := Pay(orders[i], req.amount)];
      forall j :: 0 <= j < |orders| ==>
        RemainingOrZero(after[j]) + Paid(payments + [LogEntry(req, now)], orders[j].id) ==
        RemainingOrZero(orders[j]) + Paid(payments, orders[j].id)
  {
    var after := orders[i := Pay(orders[i], req.amount)];
    forall j | 0 <= j < |orders|
      ensures RemainingOrZero(after[j]) + Paid(payments + [LogEntry(req, now)], orders[j].id) ==
        RemainingOrZero(orders[j]) + Paid(payments, orders[j].id)
    {
      PaidSnoc(payments, LogEntry(req, now), orders[j].id);
      if j != i {
        assert orders[j].id != req.orderId by {
          if j < i {
            assert orders[j].id != orders[i].id;
          } else {
            assert orders[i].id != orders[j].id;
          }
        }
      }
    }
  }

  /** `add_payment`: log the payment and lower the client order's remaining amount. */
  method AddPayment(db: OrdersDb, req: PaymentRequest, now: string) returns (resp: PaymentResponse)
    requires db.Valid()
    modifies db
    ensures db.Valid()
    ensures db.orders == old(db.orders)
    ensures FindBy(old(db.clientOrders), ClientOrderKey, req.orderId).None? ==>
      resp == PaymentOrderNotFound && db.clientOrders == old(db.clientOrders) && db.payments == old(db.payments)
    ensures FindBy(old(db.clientOrders), ClientOrderKey, req.orderId).Some? && PaymentExists(old(db.payments), req.paymentId) ==>
      resp == DuplicatePayment && db.clientOrders == old(db.clientOrders) && db.payments == old(db.payments)
    ensures FindBy(old(db.clientOrders), ClientOrderKey, req.orderId).Some? && !PaymentExists(old(db.payments), req.paymentId) ==>
      var i := FindBy(old(db.clientOrders), ClientOrderKey, req.orderId).value;
      resp == PaymentAdded(req.paymentId) &&
      db.clientOrders == old(db.clientOrders)[i := Pay(old(db.clientOrders)[i], req.amount)] &&
      db.payments == old(db.payments) + [LogEntry(req, now)]
  {
    var found := FindBy(db.clientOrders, ClientOrderKey, req.orderId);
    if found.None? {
      return PaymentOrderNotFound;
    }
    var i := found.value;
    var payment := LogEntry(req, now);
    var order := db.clientOrders[i];
    order := order.(remainingAmount := Some(order.remainingAmount.GetOr(0) - req.amount));
    if PaymentExists(db.payments, payment.id) {
      // the commit raises; the session's changes are discarded
      return DuplicatePayment;
    }
    ghost var clientOrders := db.clientOrders;
    ghost var payments := db.payments;
    db.clientOrders := db.clientOrders[i := order];
    db.payments := db.payments + [payment];
    assert forall t :: 0 <= t < |clientOrders| ==> db.clientOrders[t].id == clientOrders[t].id;
    assert forall t :: 0 <= t < |payments| ==> db.payments[t] == payments[t];
    resp := PaymentAdded(payment.id);
  }
}
