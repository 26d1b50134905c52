/**
 * The one-off patch script (`gts/update_orders.py`): every client order gets
 * an intermediary amount of 0, an empty intermediary id and the product type
 * `"Cropsil"`, and the script reports how many orders it patched.
 */
module ClientOrderPatch {
  import opened Common
  import opened OrdersDb

  /** The product type every order is given. */
  const PatchedProductType := "Cropsil"

  function Patch(o: ClientOrder): ClientOrder {
    o.(intermediarAmount := Some(0), intermediarId := Some(""), productType := Some(PatchedProductType))
  }

  /** Two client orders agree on every column except the three the script writes. */
  predicate SameOutsidePatch(a: ClientOrder, b: ClientOrder) {
    a.(intermediarAmount := b.intermediarAmount, intermediarId := b.intermediarId, productType := b.productType) == b
  }

  /** The table after the patch loop. */
  function PatchAll(orders: seq<ClientOrder>): (r: seq<ClientOrder>)
    ensures |r| == |orders|
    ensures forall i :: 0 <= i < |r| ==>
      r[i].intermediarAmount == Some(0) && r[i].intermediarId == Some("") &&
      r[i].productType == Some(PatchedProductType)
    ensures forall i :: 0 <= i < |r| ==> SameOutsidePatch(orders[i], r[i])
  {
    if |orders| == 0 then []
    else
      var init := orders[..|orders| - 1];
      assert forall i :: 0 <= i < |init| ==> init[i] == orders[i];
      PatchAll(init) + [Patch(orders[|orders| - 1])]
  }

  /** The patch keeps every primary key, so it creates and deletes no order. */
  lemma PatchAllKeepsIds(orders: seq<ClientOrder>)
    ensures forall i :: 0 <= i < |orders| ==> PatchAll(orders)[i].id == orders[i].id
    ensures UniqueClientOrderIds(orders) ==> UniqueClientOrderIds(PatchAll(orders))
  {
    var r := PatchAll(orders);
    forall i | 0 <= i < |orders|
      ensures r[i].id == orders[i].id
    {
      assert SameOutsidePatch(orders[i], r[i]);
    }
  }

  /** Running the script twice gives the table running it once gives. */
  lemma PatchAllIdempotent(orders: seq<ClientOrder>)
    ensures PatchAll(PatchAll(orders)) == PatchAll(orders)
  {
    var once := PatchAll(orders);
    var twice := PatchAll(once);
    forall i | 0 <= i < |orders|
      ensures twice[i] == once[i]
    {
      assert SameOutsidePatch(once[i], twice[i]);
    }
  }

  /** The patch loop over every client order, then the commit; `count` is `len(orders)`. */
  method PatchClientOrders(db: OrdersDb) returns (count: nat)
    requires db.Valid()
    modifies db
    ensures db.Valid()
    ensures db.clientOrders == PatchAll(old(db.clientOrders))
    ensures count == |old(db.clientOrders)|
    ensures db.orders == old(db.orders) && db.payments == old(db.payments)
  {
    ghost var orders := db.clientOrders;
    var i := 0;
    while i < |db.clientOrders|
      invariant 0 <= i <= |orders| && |db.clientOrders| == |orders|
      invariant forall t :: 0 <= t < i ==> db.clientOrders[t] == Patch(orders[t])
      invariant forall t :: i <= t < |orders| ==> db.clientOrders[t] == orders[t]
      invariant db.orders == old(db.orders) && db.payments == old(db.payments)
    {
      var order := db.clientOrders[i];
      order := order.(intermediarAmount := Some(0));
      order := order.(intermediarId := Some(""));
      order := order.(productType := Some(PatchedProductType));
      db.clientOrders := db.clientOrders[i := order];
      i := i + 1;
    }
    assert db.clientOrders == PatchAll(orders);
    PatchAllKeepsIds(orders);
    count := |db.clientOrders|;
  }
}
